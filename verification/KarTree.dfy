// The folders of an archive that is being written, and the paths to them.
module KarTree {
  import opened ByteStrings
  import opened Wrappers
  import opened KarToc

  // Folders are objects in the source; here they are places in a sequence.
  datatype KarFolder = KarFolder(folders: map<Bytes, nat>, files: map<Bytes, KarFile>)

  const EMPTY_FOLDER := KarFolder(map[], map[])

  // A folder only holds folders that were opened after it.
  ghost predicate HeapOk(folders: seq<KarFolder>) {
    && |folders| > 0
    && forall f, name | 0 <= f < |folders| && name in folders[f].folders :: f < folders[f].folders[name] < |folders|
  }

  function AddFile(folders: seq<KarFolder>, f: nat, name: Bytes, file: KarFile): seq<KarFolder>
    requires f < |folders|
  {
    folders[f := folders[f].(files := folders[f].files[name := file])]
  }

  function AddFolder(folders: seq<KarFolder>, f: nat, name: Bytes): seq<KarFolder>
    requires f < |folders|
  {
    folders[f := folders[f].(folders := folders[f].folders[name := |folders|])] + [EMPTY_FOLDER]
  }

  // ----- Where paths of names lead

  // The folder that a path of names leads to, or none.
  function Resolve(folders: seq<KarFolder>, f: nat, dirs: seq<Bytes>): Option<nat>
    decreases |dirs|
  {
    if f >= |folders| then None
    else if dirs == [] then Some(f)
    else if dirs[0] in folders[f].folders then Resolve(folders, folders[f].folders[dirs[0]], dirs[1..])
    else None
  }

  // A sub-folder's path is that of its folder and its name.
  ghost predicate PathsFit(folders: seq<KarFolder>, paths: seq<seq<Bytes>>) {
    && |paths| == |folders| > 0 && paths[0] == []
    && HeapOk(folders)
    && forall f, name | 0 <= f < |folders| && name in folders[f].folders ::
         paths[folders[f].folders[name]] == paths[f] + [name]
  }

  // The folder is found where it was opened.
  ghost predicate Leads(folders: seq<KarFolder>, paths: seq<seq<Bytes>>, f: nat)
    requires f < |paths|
  {
    Resolve(folders, 0, paths[f]) == Some(f)
  }

  // The lost folders are the ones that are not.
  ghost predicate PathsOk(folders: seq<KarFolder>, paths: seq<seq<Bytes>>, lost: set<nat>) {
    && PathsFit(folders, paths)
    && (forall f | f in lost :: f < |paths|)
    && forall f {:trigger Leads(folders, paths, f)} | 0 <= f < |paths| :: f in lost <==> !Leads(folders, paths, f)
  }

  // No open folder is lost; each lies one name below the one before.
  ghost predicate StackOk(paths: seq<seq<Bytes>>, lost: set<nat>, dirStack: seq<nat>) {
    forall i | 0 <= i < |dirStack| ::
      dirStack[i] < |paths| && dirStack[i] !in lost && |paths[dirStack[i]]| == i
  }

  // The folders in and below a path.
  ghost function Under(paths: seq<seq<Bytes>>, path: seq<Bytes>): set<nat> {
    set f: nat | f < |paths| && path <= paths[f]
  }

  // Opening a folder under a name in use loses what lies under that name.
  ghost function LostBy(folders: seq<KarFolder>, paths: seq<seq<Bytes>>, f: nat, name: Bytes): set<nat>
    requires f < |folders| && f < |paths|
  {
    if name in folders[f].folders then Under(paths, paths[f] + [name]) else {}
  }

  lemma {:induction false} ResolveAppend(folders: seq<KarFolder>, f: nat, a: seq<Bytes>, b: seq<Bytes>)
    ensures Resolve(folders, f, a + b) ==
            match Resolve(folders, f, a) case Some(g) => Resolve(folders, g, b) case None => None
    decreases |a|
  {
    if f < |folders| && a == [] {
      assert a + b == b;
    } else if f < |folders| && a[0] in folders[f].folders {
      assert (a + b)[1..] == a[1..] + b;
      ResolveAppend(folders, folders[f].folders[a[0]], a[1..], b);
    }
  }

  lemma {:induction false} AddFileResolves(folders: seq<KarFolder>, f: nat, name: Bytes, file: KarFile, g: nat,
                                           dirs: seq<Bytes>)
    requires f < |folders|
    ensures Resolve(AddFile(folders, f, name, file), g, dirs) == Resolve(folders, g, dirs)
    decreases |dirs|
  {
    if g < |folders| && dirs != [] && dirs[0] in folders[g].folders {
      AddFileResolves(folders, f, name, file, folders[g].folders[dirs[0]], dirs[1..]);
    }
  }

  lemma AddFileKeepsPaths(folders: seq<KarFolder>, paths: seq<seq<Bytes>>, lost: set<nat>, f: nat, name: Bytes,
                          file: KarFile)
    requires PathsOk(folders, paths, lost) && f < |folders|
    ensures PathsOk(AddFile(folders, f, name, file), paths, lost)
  {
    forall g | 0 <= g < |paths| ensures g in lost <==> !Leads(AddFile(folders, f, name, file), paths, g) {
      assert g in lost <==> !Leads(folders, paths, g);
      AddFileResolves(folders, f, name, file, 0, paths[g]);
    }
  }

  // A path that does not go through the new folder leads where it did.
  lemma {:induction false} OtherPaths(folders: seq<KarFolder>, paths: seq<seq<Bytes>>, f: nat, name: Bytes, g: nat,
                                      dirs: seq<Bytes>)
    requires PathsFit(folders, paths) && f < |folders| && g < |folders|
    requires !(paths[f] + [name] <= paths[g] + dirs)
    ensures Resolve(AddFolder(folders, f, name), g, dirs) == Resolve(folders, g, dirs)
    decreases |dirs|
  {
    if dirs != [] {
      var way := paths[g] + dirs;
      assert way[..|paths[g]| + 1] == paths[g] + [dirs[0]];
      if dirs[0] in folders[g].folders {
        assert (paths[g] + [dirs[0]]) + dirs[1..] == way;
        OtherPaths(folders, paths, f, name, folders[g].folders[dirs[0]], dirs[1..]);
      }
    }
  }

  // The paths through the new folder lead to it or nowhere.
  lemma {:induction false} PathsThrough(folders: seq<KarFolder>, paths: seq<seq<Bytes>>, f: nat, name: Bytes,
                                        dirs: seq<Bytes>)
    requires PathsFit(folders, paths) && f < |folders| && Leads(folders, paths, f)
    requires paths[f] + [name] <= dirs
    ensures Resolve(AddFolder(folders, f, name), 0, dirs) ==
            if dirs == paths[f] + [name] then Some(|folders|) else None
    ensures name !in folders[f].folders ==> Resolve(folders, 0, dirs) == None
  {
    var rest := dirs[|paths[f]|..];
    assert dirs == paths[f] + rest && rest[0] == name && |rest| > 0;
    assert rest[1..] == [] <==> dirs == paths[f] + [name];
    assert paths[0] + paths[f] == paths[f];
    OtherPaths(folders, paths, f, name, 0, paths[f]);
    ResolveAppend(folders, 0, paths[f], rest);
    ResolveAppend(AddFolder(folders, f, name), 0, paths[f], rest);
  }

  lemma OpenFits(folders: seq<KarFolder>, paths: seq<seq<Bytes>>, f: nat, name: Bytes)
    requires PathsFit(folders, paths) && f < |folders|
    ensures PathsFit(AddFolder(folders, f, name), paths + [paths[f] + [name]])
  {
  }

  // An earlier folder is lost by the new one, was lost already, or is neither.
  lemma {:induction false} OpenLeads(folders: seq<KarFolder>, paths: seq<seq<Bytes>>, f: nat, name: Bytes, g: nat)
    requires PathsFit(folders, paths) && f < |folders| && Leads(folders, paths, f) && g < |folders|
    ensures Leads(AddFolder(folders, f, name), paths + [paths[f] + [name]], g) <==>
            Leads(folders, paths, g) && g !in LostBy(folders, paths, f, name)
  {
    assert (paths + [paths[f] + [name]])[g] == paths[g];
    if paths[f] + [name] <= paths[g] {
      PathsThrough(folders, paths, f, name, paths[g]);
    } else {
      assert paths[0] + paths[g] == paths[g];
      OtherPaths(folders, paths, f, name, 0, paths[g]);
    }
  }

  lemma {:induction false} OpenKeepsPaths(folders: seq<KarFolder>, paths: seq<seq<Bytes>>, lost: set<nat>, f: nat,
                                          name: Bytes)
    requires PathsOk(folders, paths, lost) && f < |folders| && f !in lost
    ensures PathsOk(AddFolder(folders, f, name), paths + [paths[f] + [name]], lost + LostBy(folders, paths, f, name))
  {
    var paths' := paths + [paths[f] + [name]];
    OpenFits(folders, paths, f, name);
    forall g | 0 <= g < |folders|
      ensures Leads(AddFolder(folders, f, name), paths', g) <==> g !in lost && g !in LostBy(folders, paths, f, name)
    {
      OpenLeads(folders, paths, f, name, g);
    }
    PathsThrough(folders, paths, f, name, paths[f] + [name]);
    assert paths'[|folders|] == paths[f] + [name];
  }

  lemma OpenKeepsStack(folders: seq<KarFolder>, paths: seq<seq<Bytes>>, lost: set<nat>, dirStack: seq<nat>, name: Bytes)
    requires StackOk(paths, lost, dirStack) && dirStack != [] && |paths| == |folders|
    requires forall f | f in lost :: f < |folders|
    ensures var f := dirStack[|dirStack| - 1];
            StackOk(paths + [paths[f] + [name]], lost + LostBy(folders, paths, f, name), dirStack + [|folders|])
  {
  }
}
