// The archive writer: one producer that walks a directory tree, background
// jobs that compress and append files, and the table of contents at the end.
module KarWriter {
  import opened ByteStrings
  import opened Seqs
  import opened KarToc
  import opened KarTree

  // A background job, and whether its bytes are in the file already.
  datatype Job = Job(folder: nat, name: Bytes, content: Bytes, stored: bool)

  datatype Producer = Ready | Waiting(name: Bytes, content: Bytes) | Woken(name: Bytes, content: Bytes)

  // What a job has stored, in the order of the file.
  datatype Stored = Stored(folder: nat, name: Bytes, content: Bytes)

  const HEADER: nat := 16

  ghost function Payload(compress: Bytes -> Bytes, log: seq<Stored>): Bytes {
    if log == [] then [] else Payload(compress, DropLast(log)) + compress(log[|log| - 1].content)
  }

  // The file record of the log's last element.
  ghost function Record(compress: Bytes -> Bytes, log: seq<Stored>): KarFile
    requires log != []
  {
    var content := log[|log| - 1].content;
    KarFile(Int32(HEADER + |Payload(compress, DropLast(log))|), Int32(|compress(content)|), Int32(|content|))
  }

  // How far the log goes that last stored this name in this folder.
  function Latest(log: seq<Stored>, folder: nat, name: Bytes): (n: nat)
    ensures n <= |log| && (n > 0 ==> log[n - 1].folder == folder && log[n - 1].name == name)
  {
    if log == [] then 0
    else if log[|log| - 1].folder == folder && log[|log| - 1].name == name then |log|
    else Latest(DropLast(log), folder, name)
  }

  // A folder has a file exactly when a job stored one, with the last one's record.
  ghost predicate FileMatches(compress: Bytes -> Bytes, folders: seq<KarFolder>, log: seq<Stored>, f: nat, name: Bytes)
    requires f < |folders|
  {
    var n := Latest(log, f, name);
    && (name in folders[f].files <==> n > 0)
    && (n > 0 ==> folders[f].files[name] == Record(compress, log[..n]))
  }

  ghost predicate FilesMatch(compress: Bytes -> Bytes, folders: seq<KarFolder>, log: seq<Stored>) {
    && (forall i | 0 <= i < |log| :: log[i].folder < |folders|)
    && forall f, name | 0 <= f < |folders| :: FileMatches(compress, folders, log, f, name)
  }

  // ----- Listings of a folder

  ghost predicate Represents(folders: seq<KarFolder>, f: nat, l: Listing)
    decreases l, 1
  {
    && f < |folders|
    && DirNames(l) == folders[f].folders.Keys
    && FileNames(l) == folders[f].files.Keys
    && Distinct(l)
    && Matches(folders, f, l)
  }

  ghost predicate Matches(folders: seq<KarFolder>, f: nat, l: Listing)
    decreases l, 0
  {
    f < |folders| &&
    match l
    case End => true
    case Directory(name, inner, rest) =>
      && name in folders[f].folders
      && Represents(folders, folders[f].folders[name], inner)
      && Matches(folders, f, rest)
    case File(name, file, rest) =>
      && name in folders[f].files && folders[f].files[name] == file
      && Matches(folders, f, rest)
  }

  function Append(a: Listing, b: Listing): Listing {
    match a
    case End => b
    case Directory(name, inner, rest) => Directory(name, inner, Append(rest, b))
    case File(name, file, rest) => File(name, file, Append(rest, b))
  }

  lemma {:induction false} AppendEmits(a: Listing, b: Listing)
    ensures Emit(Append(a, b)) == Emit(a) + Emit(b)
  {
    match a
    case End => assert [] + Emit(b) == Emit(b);
    case Directory(name, inner, rest) =>
      AppendEmits(rest, b);
      Associative([Entry(NO_FILE, name)] + (Emit(inner) + [Entry(NO_FILE, UP)]), Emit(rest), Emit(b));
    case File(name, file, rest) =>
      AppendEmits(rest, b);
      Associative([Entry(file, name)], Emit(rest), Emit(b));
  }

  lemma {:induction false} AppendNames(a: Listing, b: Listing)
    ensures DirNames(Append(a, b)) == DirNames(a) + DirNames(b)
    ensures FileNames(Append(a, b)) == FileNames(a) + FileNames(b)
    ensures Distinct(a) && Distinct(b) && DirNames(a) !! DirNames(b) && FileNames(a) !! FileNames(b) ==>
              Distinct(Append(a, b))
  {
    match a
    case End =>
    case Directory(_, _, rest) => AppendNames(rest, b);
    case File(_, _, rest) => AppendNames(rest, b);
  }

  lemma {:induction false} AppendMatches(folders: seq<KarFolder>, f: nat, a: Listing, b: Listing)
    requires Matches(folders, f, a) && Matches(folders, f, b)
    ensures Matches(folders, f, Append(a, b))
  {
    match a
    case End =>
    case Directory(_, _, rest) => AppendMatches(folders, f, rest, b);
    case File(_, _, rest) => AppendMatches(folders, f, rest, b);
  }

  // What a listing says of a folder that its two loops have not finished.
  ghost predicate PartOf(folders: seq<KarFolder>, f: nat, l: Listing, dirs: set<Bytes>, files: set<Bytes>) {
    Distinct(l) && Matches(folders, f, l) && DirNames(l) == dirs && FileNames(l) == files
  }

  lemma {:induction false} AppendPart(folders: seq<KarFolder>, f: nat, a: Listing, dirs: set<Bytes>, files: set<Bytes>,
                                      b: Listing, dirs': set<Bytes>, files': set<Bytes>)
    requires PartOf(folders, f, a, dirs, files) && PartOf(folders, f, b, dirs', files')
    requires dirs !! dirs' && files !! files'
    ensures PartOf(folders, f, Append(a, b), dirs + dirs', files + files')
    ensures Emit(Append(a, b)) == Emit(a) + Emit(b)
    ensures EncodeAll(Emit(Append(a, b))) == EncodeAll(Emit(a)) + EncodeAll(Emit(b))
  {
    AppendEmits(a, b);
    AppendNames(a, b);
    AppendMatches(folders, f, a, b);
    EncodeAppend(Emit(a), Emit(b));
  }

  // out is a table of the tree below a folder, and items the number of its entries.
  ghost predicate IsTable(folders: seq<KarFolder>, f: nat, out: Bytes, items: nat) {
    exists l :: Represents(folders, f, l) && out == EncodeAll(Emit(l)) && items == |Emit(l)|
  }

  // A listing of the two loops' parts is one of the folder.
  lemma JoinParts(folders: seq<KarFolder>, f: nat, dirs: Listing, files: Listing)
    requires f < |folders|
    requires PartOf(folders, f, dirs, folders[f].folders.Keys, {})
    requires PartOf(folders, f, files, {}, folders[f].files.Keys)
    ensures var l := Append(dirs, files);
            && Represents(folders, f, l) && IsTable(folders, f, EncodeAll(Emit(l)), |Emit(l)|)
            && EncodeAll(Emit(l)) == EncodeAll(Emit(dirs)) + EncodeAll(Emit(files))
            && |Emit(l)| == |Emit(dirs)| + |Emit(files)|
  {
    AppendPart(folders, f, dirs, folders[f].folders.Keys, {}, files, {}, folders[f].files.Keys);
  }

  // Writes a folder's entries in whatever order the maps give.
  method WriteDirectoryEntries(folders: seq<KarFolder>, f: nat) returns (out: Bytes, items: nat, ghost l: Listing)
    requires HeapOk(folders) && f < |folders|
    ensures Represents(folders, f, l) && out == EncodeAll(Emit(l)) && items == |Emit(l)|
    ensures IsTable(folders, f, out, items)
    decreases |folders| - f, 1
  {
    var files;
    ghost var fileList;
    out, items, l := WriteFolders(folders, f);
    files, fileList := WriteFiles(folders, f);
    JoinParts(folders, f, l, fileList);
    l := Append(l, fileList);
    out := out + files;
    items := items + (|folders[f].folders| * 2 + |folders[f].files|);
  }

  // The loop over the sub-folders; items counts what lies inside them.
  method WriteFolders(folders: seq<KarFolder>, f: nat) returns (out: Bytes, items: nat, ghost l: Listing)
    requires HeapOk(folders) && f < |folders|
    ensures PartOf(folders, f, l, folders[f].folders.Keys, {})
    ensures out == EncodeAll(Emit(l)) && items + 2 * |folders[f].folders| == |Emit(l)|
    decreases |folders| - f, 0
  {
    out, items, l := [], 0, End;
    var names := folders[f].folders.Keys;
    ghost var done: set<Bytes> := {};
    while names != {}
      invariant names !! done && names + done == folders[f].folders.Keys
      invariant PartOf(folders, f, l, done, {})
      invariant out == EncodeAll(Emit(l)) && items + 2 * |done| == |Emit(l)|
      decreases names
    {
      var name :| name in names;
      var inner, count, innerList := WriteDirectoryEntries(folders, folders[f].folders[name]);
      OneDirectory(folders, f, name, innerList);
      AppendPart(folders, f, l, done, {}, Directory(name, innerList, End), {name}, {});
      l := Append(l, Directory(name, innerList, End));
      out := out + (EncodeEntry(Entry(NO_FILE, name)) + inner + EncodeEntry(Entry(NO_FILE, UP)));
      items := items + count;
      MoveOne(names, done, name);
      names, done := names - {name}, done + {name};
    }
  }

  lemma MoveOne(names: set<Bytes>, done: set<Bytes>, name: Bytes)
    requires names !! done && name in names
    ensures (names - {name}) !! (done + {name}) && (names - {name}) + (done + {name}) == names + done
    ensures |done + {name}| == |done| + 1
  {
  }

  method WriteFiles(folders: seq<KarFolder>, f: nat) returns (out: Bytes, ghost l: Listing)
    requires f < |folders|
    ensures PartOf(folders, f, l, {}, folders[f].files.Keys)
    ensures out == EncodeAll(Emit(l)) && |folders[f].files| == |Emit(l)|
  {
    out, l := [], End;
    var names := folders[f].files.Keys;
    ghost var done: set<Bytes> := {};
    while names != {}
      invariant names !! done && names + done == folders[f].files.Keys
      invariant PartOf(folders, f, l, {}, done)
      invariant out == EncodeAll(Emit(l)) && |done| == |Emit(l)|
      decreases names
    {
      var name :| name in names;
      OneFile(folders, f, name);
      var file := folders[f].files[name];
      AppendPart(folders, f, l, {}, done, File(name, file, End), {}, {name});
      l := Append(l, File(name, file, End));
      out := out + EncodeEntry(Entry(file, name));
      MoveOne(names, done, name);
      names, done := names - {name}, done + {name};
    }
  }

  lemma {:induction false} OneDirectory(folders: seq<KarFolder>, f: nat, name: Bytes, inner: Listing)
    requires f < |folders| && name in folders[f].folders && Represents(folders, folders[f].folders[name], inner)
    ensures PartOf(folders, f, Directory(name, inner, End), {name}, {})
    ensures EncodeAll(Emit(Directory(name, inner, End))) ==
            EncodeEntry(Entry(NO_FILE, name)) + EncodeAll(Emit(inner)) + EncodeEntry(Entry(NO_FILE, UP))
    ensures |Emit(Directory(name, inner, End))| == |Emit(inner)| + 2
  {
    var open, close := [Entry(NO_FILE, name)], [Entry(NO_FILE, UP)];
    EncodeOne(open[0]);
    EncodeOne(close[0]);
    assert close + Emit(End) == close;
    EncodeAppend(open, Emit(inner) + close);
    EncodeAppend(Emit(inner), close);
    Associative(EncodeAll(open), EncodeAll(Emit(inner)), EncodeAll(close));
  }

  lemma {:induction false} OneFile(folders: seq<KarFolder>, f: nat, name: Bytes)
    requires f < |folders| && name in folders[f].files
    ensures var l := File(name, folders[f].files[name], End);
            && PartOf(folders, f, l, {}, {name})
            && EncodeAll(Emit(l)) == EncodeEntry(Entry(folders[f].files[name], name)) && |Emit(l)| == 1
  {
  }

  lemma EncodeOne(e: Entry)
    ensures EncodeAll([e]) == EncodeEntry(e)
  {
  }

  // ----- The archive file

  function Header(toc: nat, items: nat): Bytes {
    [75, 78, 65, 82] + (Put(2, 4) + (Put(Uint32(toc), 4) + Put(Uint32(items), 4)))
  }

  function ArchiveFile(data: Bytes, l: Listing): Bytes {
    Header(HEADER + |data|, |Emit(l)|) + (data + EncodeAll(Emit(l)))
  }

  // ----- What storing a file and opening a folder keep

  lemma {:induction false} StoreKeeps(compress: Bytes -> Bytes, folders: seq<KarFolder>, log: seq<Stored>, s: Stored)
    requires FilesMatch(compress, folders, log) && s.folder < |folders|
    ensures var file := KarFile(Int32(HEADER + |Payload(compress, log)|), Int32(|compress(s.content)|),
                                Int32(|s.content|));
            var folders' := AddFile(folders, s.folder, s.name, file);
            FilesMatch(compress, folders', log + [s])
    ensures Payload(compress, log + [s]) == Payload(compress, log) + compress(s.content)
  {
    var log' := log + [s];
    assert DropLast(log') == log && log'[..|log'|] == log';
    var folders' := AddFile(folders, s.folder, s.name, Record(compress, log'));
    forall f, name | 0 <= f < |folders'| ensures FileMatches(compress, folders', log', f, name) {
      var n := Latest(log, f, name);
      assert FileMatches(compress, folders, log, f, name);
      assert n <= |log| && log'[..n] == log[..n];
    }
  }

  lemma NothingStored(log: seq<Stored>, folder: nat, name: Bytes)
    requires forall i | 0 <= i < |log| :: log[i].folder != folder
    ensures Latest(log, folder, name) == 0
  {
  }

  lemma {:induction false} OpenKeeps(compress: Bytes -> Bytes, folders: seq<KarFolder>, log: seq<Stored>, f: nat,
                                     name: Bytes)
    requires FilesMatch(compress, folders, log) && f < |folders|
    ensures var folders' := AddFolder(folders, f, name); FilesMatch(compress, folders', log)
  {
    var folders' := AddFolder(folders, f, name);
    forall g, m | 0 <= g < |folders'| ensures FileMatches(compress, folders', log, g, m) {
      if g < |folders| {
        assert FileMatches(compress, folders, log, g, m);
      } else {
        NothingStored(log, g, m);
      }
    }
  }

  // ----- What becomes of the accepted files

  function FileOfJob(job: Job): Stored {
    Stored(job.folder, job.name, job.content)
  }

  // ids says which accepted file each entry of the log is; the accepted files
  // that are not there belong to jobs that have not stored theirs.
  ghost predicate Accounted(accepted: map<nat, Stored>, ids: seq<nat>, log: seq<Stored>, jobs: map<nat, Job>,
                            next: nat) {
    && InLog(accepted, ids, log)
    && (forall id | id in accepted :: id < next && (id in ids || (id in jobs && !jobs[id].stored)))
    && (forall id | id in jobs :: id in accepted && accepted[id] == FileOfJob(jobs[id]) &&
                                  (jobs[id].stored <==> id in ids))
  }

  ghost predicate InLog(accepted: map<nat, Stored>, ids: seq<nat>, log: seq<Stored>) {
    && |ids| == |log|
    && (forall i | 0 <= i < |ids| :: ids[i] in accepted && accepted[ids[i]] == log[i])
    && forall i, j | 0 <= i < j < |ids| :: ids[i] != ids[j]
  }

  // Every accepted file is in the log exactly once.
  ghost predicate AllInLog(accepted: map<nat, Stored>, ids: seq<nat>, log: seq<Stored>) {
    InLog(accepted, ids, log) && forall id | id in accepted :: id in ids
  }

  // The open directories, from the root to the current one.
  ghost predicate AtEnds(dirStack: seq<nat>, current: nat) {
    dirStack != [] && dirStack[0] == 0 && current == dirStack[|dirStack| - 1]
  }

  predicate SlotsOk(cpus: nat, routines: nat, producer: Producer) {
    routines <= cpus && cpus > 0 && (producer.Woken? ==> routines < cpus)
  }

  // The folders, and what is known of them.  TreeOk and BooksOk stand under a
  // quantifier, so that the writer's methods handle each as one fact; the lemmas
  // about them open it with Same.
  datatype Tree = Tree(folders: seq<KarFolder>, dirStack: seq<nat>, current: nat, paths: seq<seq<Bytes>>,
                       lost: set<nat>)

  ghost predicate TreeOk(t: Tree) {
    forall u {:trigger Same(t, u)} | Same(t, u) ::
      AtEnds(u.dirStack, u.current) && PathsOk(u.folders, u.paths, u.lost) && StackOk(u.paths, u.lost, u.dirStack)
  }

  lemma TreeOpens(folders: seq<KarFolder>, dirStack: seq<nat>, current: nat, paths: seq<seq<Bytes>>, lost: set<nat>,
                  name: Bytes)
    requires TreeOk(Tree(folders, dirStack, current, paths, lost)) && current < |folders| == |paths|
    ensures TreeOk(Tree(AddFolder(folders, current, name), dirStack + [|folders|], |folders|,
                        paths + [paths[current] + [name]], lost + LostBy(folders, paths, current, name)))
  {
    var t := Tree(folders, dirStack, current, paths, lost);
    assert Same(t, t);
    assert PathsOk(folders, paths, lost) && StackOk(paths, lost, dirStack);
    OpenKeepsPaths(folders, paths, lost, current, name);
    OpenKeepsStack(folders, paths, lost, dirStack, name);
  }

  lemma TreeCloses(folders: seq<KarFolder>, dirStack: seq<nat>, current: nat, paths: seq<seq<Bytes>>, lost: set<nat>)
    requires TreeOk(Tree(folders, dirStack, current, paths, lost))
    ensures dirStack != [] && HeapOk(folders) && PathsOk(folders, paths, lost)
    ensures |dirStack| >= 2 ==>
              var front := DropLast(dirStack);
              TreeOk(Tree(folders, front, front[|front| - 1], paths, lost)) && front[|front| - 1] < |folders| == |paths|
  {
    var t := Tree(folders, dirStack, current, paths, lost);
    assert Same(t, t);
  }

  lemma TreeStores(folders: seq<KarFolder>, dirStack: seq<nat>, current: nat, paths: seq<seq<Bytes>>, lost: set<nat>,
                   f: nat, name: Bytes, file: KarFile)
    requires TreeOk(Tree(folders, dirStack, current, paths, lost)) && f < |folders|
    ensures TreeOk(Tree(AddFile(folders, f, name, file), dirStack, current, paths, lost))
  {
    var t := Tree(folders, dirStack, current, paths, lost);
    assert Same(t, t);
    assert PathsOk(folders, paths, lost);
    AddFileKeepsPaths(folders, paths, lost, f, name, file);
  }

  // The data is what the log's files compress to, and the folders point into it.
  ghost predicate ContentOk(compress: Bytes -> Bytes, folders: seq<KarFolder>, data: Bytes, log: seq<Stored>) {
    data == Payload(compress, log) && FilesMatch(compress, folders, log)
  }

  // One slot is taken for each job.
  ghost predicate JobsOk(jobs: map<nat, Job>, routines: nat, count: nat) {
    routines == |jobs| && forall id | id in jobs :: jobs[id].folder < count
  }

  lemma JobStarts(jobs: map<nat, Job>, routines: nat, count: nat, id: nat, job: Job)
    requires JobsOk(jobs, routines, count) && id !in jobs && job.folder < count
    ensures JobsOk(jobs[id := job], routines + 1, count)
  {
  }

  lemma JobStores(jobs: map<nat, Job>, routines: nat, count: nat, id: nat)
    requires JobsOk(jobs, routines, count) && id in jobs
    ensures JobsOk(jobs[id := jobs[id].(stored := true)], routines, count)
  {
  }

  lemma JobEnds(jobs: map<nat, Job>, routines: nat, count: nat, id: nat)
    requires JobsOk(jobs, routines, count) && id in jobs
    ensures routines > 0 && JobsOk(jobs - {id}, routines - 1, count)
  {
  }

  // The jobs, the slots they take among so many folders, and what became of the
  // accepted files.
  datatype Books = Books(jobs: map<nat, Job>, routines: nat, count: nat, accepted: map<nat, Stored>, ids: seq<nat>,
                         log: seq<Stored>, next: nat)

  ghost predicate BooksOk(b: Books) {
    forall c {:trigger Same(b, c)} | Same(b, c) ::
      JobsOk(c.jobs, c.routines, c.count) && Accounted(c.accepted, c.ids, c.log, c.jobs, c.next)
  }

  lemma BooksMoreFolders(jobs: map<nat, Job>, routines: nat, count: nat, accepted: map<nat, Stored>, ids: seq<nat>,
                         log: seq<Stored>, next: nat)
    requires BooksOk(Books(jobs, routines, count, accepted, ids, log, next))
    ensures BooksOk(Books(jobs, routines, count + 1, accepted, ids, log, next))
  {
    var b := Books(jobs, routines, count, accepted, ids, log, next);
    assert Same(b, b);
  }

  lemma BooksStart(jobs: map<nat, Job>, routines: nat, count: nat, accepted: map<nat, Stored>, ids: seq<nat>,
                   log: seq<Stored>, next: nat, job: Job)
    requires BooksOk(Books(jobs, routines, count, accepted, ids, log, next)) && !job.stored && job.folder < count
    ensures next !in accepted && next !in jobs
    ensures BooksOk(Books(jobs[next := job], routines + 1, count, accepted[next := FileOfJob(job)], ids, log, next + 1))
  {
    var b := Books(jobs, routines, count, accepted, ids, log, next);
    assert Same(b, b);
    StartAccounts(accepted, ids, log, jobs, next, job);
    JobStarts(jobs, routines, count, next, job);
  }

  lemma BooksStore(jobs: map<nat, Job>, routines: nat, count: nat, accepted: map<nat, Stored>, ids: seq<nat>,
                   log: seq<Stored>, next: nat, id: nat)
    requires BooksOk(Books(jobs, routines, count, accepted, ids, log, next)) && id in jobs && !jobs[id].stored
    ensures jobs[id].folder < count
    ensures BooksOk(Books(jobs[id := jobs[id].(stored := true)], routines, count, accepted, ids + [id],
                          log + [FileOfJob(jobs[id])], next))
  {
    var b := Books(jobs, routines, count, accepted, ids, log, next);
    assert Same(b, b);
    StoreAccounts(accepted, ids, log, jobs, next, id);
    JobStores(jobs, routines, count, id);
  }

  lemma BooksEnd(jobs: map<nat, Job>, routines: nat, count: nat, accepted: map<nat, Stored>, ids: seq<nat>,
                 log: seq<Stored>, next: nat, id: nat)
    requires BooksOk(Books(jobs, routines, count, accepted, ids, log, next)) && id in jobs && jobs[id].stored
    ensures routines > 0 && BooksOk(Books(jobs - {id}, routines - 1, count, accepted, ids, log, next))
  {
    var b := Books(jobs, routines, count, accepted, ids, log, next);
    assert Same(b, b);
    CleanupAccounts(accepted, ids, log, jobs, next, id);
    JobEnds(jobs, routines, count, id);
  }

  // With no job left, every accepted file is in the log.
  lemma BooksClosed(jobs: map<nat, Job>, count: nat, accepted: map<nat, Stored>, ids: seq<nat>, log: seq<Stored>,
                    next: nat)
    requires BooksOk(Books(jobs, 0, count, accepted, ids, log, next))
    ensures AllInLog(accepted, ids, log)
  {
    var b := Books(jobs, 0, count, accepted, ids, log, next);
    assert Same(b, b);
    assert JobsOk(jobs, 0, count);
  }

  lemma StartAccounts(accepted: map<nat, Stored>, ids: seq<nat>, log: seq<Stored>, jobs: map<nat, Job>, next: nat,
                      job: Job)
    requires Accounted(accepted, ids, log, jobs, next) && !job.stored
    ensures next !in accepted && next !in jobs
    ensures Accounted(accepted[next := FileOfJob(job)], ids, log, jobs[next := job], next + 1)
  {
  }

  lemma StoreAccounts(accepted: map<nat, Stored>, ids: seq<nat>, log: seq<Stored>, jobs: map<nat, Job>, next: nat,
                      id: nat)
    requires Accounted(accepted, ids, log, jobs, next) && id in jobs && !jobs[id].stored
    ensures Accounted(accepted, ids + [id], log + [FileOfJob(jobs[id])], jobs[id := jobs[id].(stored := true)], next)
  {
  }

  lemma CleanupAccounts(accepted: map<nat, Stored>, ids: seq<nat>, log: seq<Stored>, jobs: map<nat, Job>, next: nat,
                        id: nat)
    requires Accounted(accepted, ids, log, jobs, next) && id in jobs && jobs[id].stored
    ensures Accounted(accepted, ids, log, jobs - {id}, next)
  {
  }

  // The header, the data and the table.
  method WriteArchive(folders: seq<KarFolder>, data: Bytes) returns (archive: Bytes, ghost l: Listing)
    requires HeapOk(folders)
    ensures Represents(folders, 0, l) && archive == ArchiveFile(data, l)
  {
    var toc, items;
    toc, items, l := WriteDirectoryEntries(folders, 0);
    archive := Header(HEADER + |data|, items) + (data + toc);
  }

  // ----- The writer

  class KarWriter {
    const cpus: nat
    const compress: Bytes -> Bytes
    var folders: seq<KarFolder>
    var dirStack: seq<nat>
    var current: nat
    var data: Bytes
    var routines: nat
    var producer: Producer
    var jobs: map<nat, Job>
    var nextJob: nat
    ghost var log: seq<Stored>
    ghost var accepted: map<nat, Stored>
    ghost var ids: seq<nat>
    // The names that each folder was opened under, and the folders that a later
    // one with the same names has replaced.
    ghost var paths: seq<seq<Bytes>>
    ghost var lost: set<nat>

    ghost predicate Valid()
      reads this
    {
      && SlotsOk(cpus, routines, producer)
      && BooksOk(Books(jobs, routines, |folders|, accepted, ids, log, nextJob))
      && ContentOk(compress, folders, data, log)
      && TreeOk(Tree(folders, dirStack, current, paths, lost)) && current < |folders| == |paths|
    }

    constructor (cpus: nat, compress: Bytes -> Bytes)
      requires cpus > 0
      ensures Valid() && this.cpus == cpus && this.compress == compress
      ensures folders == [EMPTY_FOLDER] && dirStack == [0] && data == [] && jobs == map[] && producer == Ready &&
              log == []
      ensures accepted == map[] && paths == [[]] && lost == {}
    {
      this.cpus, this.compress := cpus, compress;
      folders, dirStack, current := [EMPTY_FOLDER], [0], 0;
      data, routines, producer, jobs, nextJob, log := [], 0, Ready, map[], 0, [];
      accepted, ids, paths, lost := map[], [], [[]], {};
    }

    method OpenDirectory(dirname: Bytes)
      requires Valid() && producer == Ready
      modifies this`folders, this`dirStack, this`current, this`paths, this`lost
      ensures Valid() && HasOpened(dirname)
    {
      BooksMoreFolders(jobs, routines, |folders|, accepted, ids, log, nextJob);
      AddDirectory(dirname);
    }

    method AddDirectory(dirname: Bytes)
      requires ContentOk(compress, folders, data, log) && current < |folders| == |paths|
      requires TreeOk(Tree(folders, dirStack, current, paths, lost))
      modifies this`folders, this`dirStack, this`current, this`paths, this`lost
      ensures ContentOk(compress, folders, data, log) && current < |folders| == |paths|
      ensures TreeOk(Tree(folders, dirStack, current, paths, lost))
      ensures folders == AddFolder(old(folders), old(current), dirname)
      ensures dirStack == old(dirStack) + [|old(folders)|]
      ensures paths == old(paths) + [old(paths[current]) + [dirname]]
      ensures lost == old(lost) + old(LostBy(folders, paths, current, dirname))
    {
      TreeOpens(folders, dirStack, current, paths, lost, dirname);
      OpenKeeps(compress, folders, log, current, dirname);
      var dir := |folders|;
      folders, paths, lost :=
        AddFolder(folders, current, dirname), paths + [paths[current] + [dirname]],
        lost + LostBy(folders, paths, current, dirname);
      dirStack := dirStack + [dir];
      current := dir;
    }

    // There is one more folder, empty and open, in the one that was current.
    twostate predicate HasOpened(dirname: Bytes)
      requires old(Valid())
      reads this
    {
      && folders == AddFolder(old(folders), old(current), dirname)
      && dirStack == old(dirStack) + [|old(folders)|]
      && paths == old(paths) + [old(paths[current]) + [dirname]]
      && lost == old(lost) + old(LostBy(folders, paths, current, dirname))
    }

    method CloseDirectory() returns (ok: bool)
      requires Valid() && producer == Ready
      modifies this`dirStack, this`current
      ensures Valid()
      ensures ok <==> |old(dirStack)| >= 2
      ensures dirStack == if ok then DropLast(old(dirStack)) else old(dirStack)
    {
      TreeCloses(folders, dirStack, current, paths, lost);
      if |dirStack| < 2 {
        return false;
      }
      dirStack := DropLast(dirStack);
      current := dirStack[|dirStack| - 1];
      return true;
    }

    // The producer waits once when every CPU is busy, and starts the job at once
    // otherwise.  The job keeps the folder that is current at the call.
    method WriteFile(filename: Bytes, content: Bytes)
      requires Valid() && producer == Ready
      modifies this`routines, this`producer, this`jobs, this`nextJob, this`accepted
      ensures Valid()
      ensures if old(routines) >= cpus
              then producer == Waiting(filename, content) && jobs == old(jobs) && accepted == old(accepted)
              else producer == Ready && Started(filename, content)
    {
      if routines >= cpus {
        producer := Waiting(filename, content);
      } else {
        Start(filename, content);
      }
    }

    // The producer's wait is over.
    method Resume()
      requires Valid() && producer.Woken?
      modifies this`routines, this`producer, this`jobs, this`nextJob, this`accepted
      ensures Valid() && producer == Ready && Started(old(producer.name), old(producer.content))
    {
      Start(producer.name, producer.content);
    }

    // A new job, for a file that was accepted for the current folder.
    twostate predicate Started(filename: Bytes, content: Bytes)
      reads this
    {
      && old(nextJob) !in old(jobs) && old(nextJob) !in old(accepted)
      && jobs == old(jobs)[old(nextJob) := Job(old(current), filename, content, false)]
      && accepted == old(accepted)[old(nextJob) := Stored(old(current), filename, content)]
    }

    method Start(filename: Bytes, content: Bytes)
      requires Valid() && routines < cpus
      modifies this`routines, this`producer, this`jobs, this`nextJob, this`accepted
      ensures Valid() && producer == Ready && Started(filename, content)
    {
      BooksStart(jobs, routines, |folders|, accepted, ids, log, nextJob, Job(current, filename, content, false));
      accepted := accepted[nextJob := Stored(current, filename, content)];
      routines := routines + 1;
      producer := Ready;
      jobs := jobs[nextJob := Job(current, filename, content, false)];
      nextJob := nextJob + 1;
    }

    function FileAt(offset: nat, content: Bytes): KarFile {
      KarFile(Int32(HEADER + offset), Int32(|compress(content)|), Int32(|content|))
    }

    // A job's turn at the file, under the write lock.
    method Store(id: nat)
      requires Valid() && id in jobs && !jobs[id].stored
      modifies this`folders, this`data, this`jobs, this`log, this`ids
      ensures Valid()
      ensures jobs == old(jobs[id := jobs[id].(stored := true)])
      ensures HasStored(old(jobs[id]))
    {
      var job, file := jobs[id], FileAt(|data|, jobs[id].content);
      BooksStore(jobs, routines, |folders|, accepted, ids, log, nextJob, id);
      StoreKeeps(compress, folders, log, FileOfJob(job));
      TreeStores(folders, dirStack, current, paths, lost, job.folder, job.name, file);
      folders, data := AddFile(folders, job.folder, job.name, file), data + compress(job.content);
      jobs, log, ids := jobs[id := job.(stored := true)], log + [FileOfJob(job)], ids + [id];
    }

    // The bytes are at the end of the data, and the folder points at them.
    twostate predicate HasStored(job: Job)
      reads this
    {
      && log == old(log) + [FileOfJob(job)]
      && data == old(data) + compress(job.content)
      && job.folder < |old(folders)|
      && folders == AddFile(old(folders), job.folder, job.name, old(FileAt(|data|, job.content)))
    }

    // A job's last step: it gives its slot back and wakes a waiting producer.
    method Cleanup(id: nat)
      requires Valid() && id in jobs && jobs[id].stored
      modifies this`routines, this`producer, this`jobs
      ensures Valid() && jobs == old(jobs) - {id} && routines == old(routines) - 1
      ensures producer ==
              if old(producer).Waiting? then Woken(old(producer).name, old(producer).content) else old(producer)
    {
      BooksEnd(jobs, routines, |folders|, accepted, ids, log, nextJob, id);
      routines := routines - 1;
      jobs := jobs - {id};
      if producer.Waiting? {
        producer := Woken(producer.name, producer.content);
      }
    }

    // Close once its wait for the jobs is over.
    method Close() returns (ok: bool, archive: Bytes, ghost l: Listing)
      requires Valid() && producer == Ready && routines == 0
      ensures ok <==> |dirStack| == 1
      ensures ok ==> Represents(folders, 0, l) && archive == ArchiveFile(data, l)
      ensures AllInLog(accepted, ids, log) && ContentOk(compress, folders, data, log) && PathsOk(folders, paths, lost)
    {
      BooksClosed(jobs, |folders|, accepted, ids, log, nextJob);
      TreeCloses(folders, dirStack, current, paths, lost);
      archive, l := [], End;
      if |dirStack| != 1 {
        return false, archive, l;
      }
      archive, l := WriteArchive(folders, data);
      return true, archive, l;
    }
  }
}
