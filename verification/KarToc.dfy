// The archive's table of contents: a bracketed list of entries, written from a
// tree of folders in any order and read back with a stack of names.
module KarToc {
  import opened ByteStrings
  import opened Seqs

  const SLASH: Byte := 47
  const UP: Bytes := [46, 46]

  // Where a file's compressed bytes are, their number and the original size.
  datatype KarFile = KarFile(offset: int, size: int, decSize: int)

  // What one folder emits, in the order in which it was written.
  datatype Listing =
    | End
    | Directory(name: Bytes, inner: Listing, rest: Listing)
    | File(name: Bytes, file: KarFile, rest: Listing)

  // ----- The written form

  datatype Entry = Entry(file: KarFile, name: Bytes)

  const NO_FILE := KarFile(0, 0, 0)

  // A folder is an empty entry with its name, and one named ".." behind its content.
  function Emit(l: Listing): seq<Entry> {
    match l
    case End => []
    case Directory(name, inner, rest) => [Entry(NO_FILE, name)] + (Emit(inner) + ([Entry(NO_FILE, UP)] + Emit(rest)))
    case File(name, file, rest) => [Entry(file, name)] + Emit(rest)
  }

  function EncodeEntry(e: Entry): Bytes {
    Put(Uint32(e.file.offset), 4) +
    (Put(Uint32(e.file.size), 4) + (Put(Uint32(e.file.decSize), 4) + (Put(|e.name|, 2) + e.name)))
  }

  function EncodeAll(es: seq<Entry>): Bytes {
    if es == [] then [] else EncodeEntry(es[0]) + EncodeAll(es[1..])
  }

  lemma {:induction false} EncodeAppend(a: seq<Entry>, b: seq<Entry>)
    ensures EncodeAll(a + b) == EncodeAll(a) + EncodeAll(b)
  {
    if a == [] {
      assert a + b == b;
    } else {
      EncodeAppend(a[1..], b);
      AppendToTail(a, b);
      Associative(EncodeEntry(a[0]), EncodeAll(a[1..]), EncodeAll(b));
    }
  }

  // ----- Full paths

  function FolderPath(dirs: seq<Bytes>): Bytes {
    if dirs == [] then [] else FolderPath(DropLast(dirs)) + (dirs[|dirs| - 1] + [SLASH])
  }

  function FullPath(dirs: seq<Bytes>, name: Bytes): Bytes {
    FolderPath(dirs) + name
  }

  predicate Plain(name: Bytes) {
    SLASH !in name
  }

  ghost predicate AllPlain(dirs: seq<Bytes>) {
    forall i | 0 <= i < |dirs| :: Plain(dirs[i])
  }

  lemma {:induction false} FolderPathOfFirst(dirs: seq<Bytes>)
    requires dirs != []
    ensures FolderPath(dirs) == dirs[0] + [SLASH] + FolderPath(dirs[1..])
  {
    if |dirs| > 1 {
      FolderPathOfFirst(DropLast(dirs));
      assert DropLast(dirs)[1..] == DropLast(dirs[1..]);
    } else {
      assert DropLast(dirs) == [] && dirs[1..] == [];
    }
  }

  // A full path is a plain name, or has its first slash behind the first folder.
  lemma PathParts(dirs: seq<Bytes>, name: Bytes)
    requires AllPlain(dirs) && Plain(name)
    ensures dirs == [] ==> FullPath(dirs, name) == name
    ensures dirs != [] ==> FullPath(dirs, name) == dirs[0] + [SLASH] + FullPath(dirs[1..], name)
    ensures dirs != [] <==> SLASH in FullPath(dirs, name)
  {
    if dirs != [] {
      FolderPathOfFirst(dirs);
      assert FullPath(dirs, name) == dirs[0] + [SLASH] + FullPath(dirs[1..], name);
    }
  }

  lemma {:induction false} PathInjective(a: seq<Bytes>, m: Bytes, b: seq<Bytes>, n: Bytes)
    requires AllPlain(a) && Plain(m) && AllPlain(b) && Plain(n)
    requires FullPath(a, m) == FullPath(b, n)
    ensures a == b && m == n
    decreases |a| + |b|
  {
    PathParts(a, m);
    PathParts(b, n);
    if a != [] && b != [] {
      FirstSeparator(a[0], FullPath(a[1..], m), b[0], FullPath(b[1..], n), SLASH);
      PathInjective(a[1..], m, b[1..], n);
      assert a == [a[0]] + a[1..] && b == [b[0]] + b[1..];
    }
  }

  // ----- What a listing holds

  predicate NamesOk(l: Listing) {
    match l
    case End => true
    case Directory(name, inner, rest) =>
      Plain(name) && name != UP && |name| <= 2048 && NamesOk(inner) && NamesOk(rest)
    case File(name, _, rest) => Plain(name) && |name| <= 2048 && NamesOk(rest)
  }

  function DirNames(l: Listing): set<Bytes> {
    match l
    case End => {}
    case Directory(name, _, rest) => {name} + DirNames(rest)
    case File(_, _, rest) => DirNames(rest)
  }

  function FileNames(l: Listing): set<Bytes> {
    match l
    case End => {}
    case Directory(_, _, rest) => FileNames(rest)
    case File(name, _, rest) => {name} + FileNames(rest)
  }

  // No folder has two folders or two files of one name.
  predicate Distinct(l: Listing) {
    match l
    case End => true
    case Directory(name, inner, rest) => name !in DirNames(rest) && Distinct(inner) && Distinct(rest)
    case File(name, _, rest) => name !in FileNames(rest) && Distinct(rest)
  }

  datatype Found = Nothing | Just(file: KarFile)

  function Find(l: Listing, dirs: seq<Bytes>, name: Bytes): Found {
    match l
    case End => Nothing
    case Directory(n, inner, rest) =>
      if dirs != [] && dirs[0] == n then Find(inner, dirs[1..], name) else Find(rest, dirs, name)
    case File(n, file, rest) =>
      if dirs == [] && n == name then Just(file) else Find(rest, dirs, name)
  }

  // The reader's map after a listing, from a given stack of folder names.
  function Collect(l: Listing, stack: seq<Bytes>, items: map<Bytes, KarFile>): map<Bytes, KarFile> {
    match l
    case End => items
    case Directory(name, inner, rest) => Collect(rest, stack, Collect(inner, stack + [name], items))
    case File(name, file, rest) => Collect(rest, stack, items[FullPath(stack, name) := file])
  }

  lemma {:induction false} FindNeedsName(l: Listing, dirs: seq<Bytes>, name: Bytes)
    requires Find(l, dirs, name).Just?
    ensures if dirs == [] then name in FileNames(l) else dirs[0] in DirNames(l)
  {
    match l
    case Directory(n, inner, rest) =>
      if !(dirs != [] && dirs[0] == n) {
        FindNeedsName(rest, dirs, name);
      }
    case File(n, _, rest) =>
      if !(dirs == [] && n == name) {
        FindNeedsName(rest, dirs, name);
      }
  }

  // Collect changes nothing but what lies in the listing.
  lemma {:induction false} CollectElsewhere(l: Listing, stack: seq<Bytes>, items: map<Bytes, KarFile>, p: Bytes)
    requires NamesOk(l) && AllPlain(stack)
    requires forall dirs, name | AllPlain(dirs) && Plain(name) && stack <= dirs :: p != FullPath(dirs, name)
    ensures p in Collect(l, stack, items) <==> p in items
    ensures p in items ==> Collect(l, stack, items)[p] == items[p]
  {
    match l
    case End =>
    case Directory(name, inner, rest) =>
      CollectElsewhere(inner, stack + [name], items, p);
      CollectElsewhere(rest, stack, Collect(inner, stack + [name], items), p);
    case File(name, file, rest) =>
      CollectElsewhere(rest, stack, items[FullPath(stack, name) := file], p);
  }

  // The entry of a path: what the listing holds there, or what was there before.
  lemma {:induction false} CollectAt(l: Listing, stack: seq<Bytes>, items: map<Bytes, KarFile>,
                                     dirs: seq<Bytes>, name: Bytes)
    requires NamesOk(l) && Distinct(l) && AllPlain(stack) && AllPlain(dirs) && Plain(name)
    ensures var p, after := FullPath(stack + dirs, name), Collect(l, stack, items);
            match Find(l, dirs, name)
            case Just(file) => p in after && after[p] == file
            case Nothing => (p in after <==> p in items) && (p in items ==> after[p] == items[p])
  {
    var p := FullPath(stack + dirs, name);
    match l
    case End =>
    case Directory(n, inner, rest) =>
      var middle := Collect(inner, stack + [n], items);
      CollectAt(rest, stack, middle, dirs, name);
      if dirs != [] && dirs[0] == n {
        assert stack + dirs == (stack + [n]) + dirs[1..];
        CollectAt(inner, stack + [n], items, dirs[1..], name);
        if Find(rest, dirs, name).Just? {
          FindNeedsName(rest, dirs, name);
          assert false;
        }
      } else {
        forall ds, m | AllPlain(ds) && Plain(m) && stack + [n] <= ds ensures p != FullPath(ds, m) {
          assert ds[|stack|] == n && (dirs != [] ==> (stack + dirs)[|stack|] == dirs[0]);
          if p == FullPath(ds, m) {
            PathInjective(stack + dirs, name, ds, m);
          }
        }
        CollectElsewhere(inner, stack + [n], items, p);
      }
    case File(n, file, rest) =>
      CollectAt(rest, stack, items[FullPath(stack, n) := file], dirs, name);
      if dirs == [] && n == name {
        assert stack + dirs == stack;
        if Find(rest, dirs, name).Just? {
          FindNeedsName(rest, dirs, name);
          assert false;
        }
      } else if p == FullPath(stack, n) {
        assert stack + dirs == stack ==> dirs == [] by {
          assert |stack + dirs| == |stack| + |dirs|;
        }
        PathInjective(stack + dirs, name, stack, n);
      }
  }

  // Every entry comes from the listing or was there before.
  lemma {:induction false} CollectOnly(l: Listing, stack: seq<Bytes>, items: map<Bytes, KarFile>, p: Bytes)
    returns (dirs: seq<Bytes>, name: Bytes)
    requires NamesOk(l) && Distinct(l) && p in Collect(l, stack, items) && p !in items
    ensures AllPlain(dirs) && Plain(name) && p == FullPath(stack + dirs, name) && Find(l, dirs, name).Just?
  {
    match l
    case Directory(n, inner, rest) =>
      var middle := Collect(inner, stack + [n], items);
      if p in middle {
        var ds;
        ds, name := CollectOnly(inner, stack + [n], items, p);
        dirs := [n] + ds;
        assert stack + dirs == (stack + [n]) + ds && dirs[1..] == ds;
      } else {
        dirs, name := CollectOnly(rest, stack, middle, p);
        if dirs != [] && dirs[0] == n {
          FindNeedsName(rest, dirs, name);
        }
      }
    case File(n, file, rest) =>
      var next := items[FullPath(stack, n) := file];
      if p in next {
        dirs, name := [], n;
        assert stack + dirs == stack;
      } else {
        dirs, name := CollectOnly(rest, stack, next, p);
        if dirs == [] && name == n {
          FindNeedsName(rest, dirs, name);
        }
      }
  }
}
