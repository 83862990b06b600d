// The install dialog: which packages have to be installed along with the ones
// that the user selected.
module InstallClosure {
  import opened Seqs

  datatype Dependency = Dependency(id: string, package: string)

  datatype Package = Package(modid: string, name: string, dependencies: seq<Dependency>)

  function Key(modid: string, name: string): string {
    modid + "#" + name
  }

  function KeyOf(pkg: Package): string {
    Key(pkg.modid, pkg.name)
  }

  // A package's entry in the tree.
  class Node {
    const pkg: Package
    var selected: bool

    constructor (pkg: Package, selected: bool)
      ensures this.pkg == pkg && this.selected == selected
    {
      this.pkg, this.selected := pkg, selected;
    }
  }

  // The mods of the tree, each with the nodes of its packages.
  type Tree = seq<seq<Node>>

  ghost function Nodes(tree: Tree): set<Node> {
    set i, j | 0 <= i < |tree| && 0 <= j < |tree[i]| :: tree[i][j]
  }

  ghost function Packages(nodes: set<Node>): set<Package> {
    set n | n in nodes :: n.pkg
  }

  // ----- What should be selected

  predicate DependsOn(a: Package, b: Package) {
    KeyOf(b) in Keys(a.dependencies)
  }

  function Keys(dependencies: seq<Dependency>): set<string> {
    set d | d in dependencies :: Key(d.id, d.package)
  }

  // Each package of a path is a dependency of the one before, and the user
  // selected the first.
  ghost predicate Path(pkgs: set<Package>, user: set<string>, path: seq<Package>) {
    && path != [] && KeyOf(path[0]) in user
    && (forall p | p in path :: p in pkgs)
    && forall i | 0 < i < |path| :: DependsOn(path[i - 1], path[i])
  }

  ghost predicate Reached(pkgs: set<Package>, user: set<string>, p: Package) {
    exists path :: Path(pkgs, user, path) && path[|path| - 1] == p
  }

  // A set of packages with what the user selected and all its dependencies.
  ghost predicate Closed(pkgs: set<Package>, user: set<string>, chosen: set<Package>) {
    && (forall p | p in pkgs && KeyOf(p) in user :: p in chosen)
    && (forall a, b | a in chosen && b in pkgs && DependsOn(a, b) :: b in chosen)
  }

  lemma {:induction false} SelectedIsReached(pkgs: set<Package>, user: set<string>, p: Package)
    requires p in pkgs && KeyOf(p) in user
    ensures Reached(pkgs, user, p)
  {
    assert Path(pkgs, user, [p]) && [p][|[p]| - 1] == p;
  }

  lemma {:induction false} DependencyIsReached(pkgs: set<Package>, user: set<string>, a: Package, b: Package)
    requires Reached(pkgs, user, a) && b in pkgs && DependsOn(a, b)
    ensures Reached(pkgs, user, b)
  {
    var path :| Path(pkgs, user, path) && path[|path| - 1] == a;
    var longer := path + [b];
    forall i | 0 < i < |longer| ensures DependsOn(longer[i - 1], longer[i]) {
      if i < |path| {
        assert longer[i] == path[i] && longer[i - 1] == path[i - 1];
      }
    }
    assert Path(pkgs, user, longer) && longer[|longer| - 1] == b;
  }

  lemma {:induction false} PathInside(pkgs: set<Package>, user: set<string>, chosen: set<Package>, path: seq<Package>)
    requires Closed(pkgs, user, chosen) && Path(pkgs, user, path)
    ensures path[|path| - 1] in chosen
  {
    if |path| == 1 {
      assert path[0] in path;
    } else {
      var front := DropLast(path);
      forall p | p in front ensures p in pkgs {
        assert p in path;
      }
      assert Path(pkgs, user, front);
      PathInside(pkgs, user, chosen, front);
      assert path[|path| - 1] in path && DependsOn(front[|front| - 1], path[|path| - 1]);
    }
  }

  // The reached packages are the least closed set.
  lemma {:induction false} ReachedIsLeastClosed(pkgs: set<Package>, user: set<string>, chosen: set<Package>)
    ensures Closed(pkgs, user, set p | p in pkgs && Reached(pkgs, user, p))
    ensures Closed(pkgs, user, chosen) ==> forall p | Reached(pkgs, user, p) :: p in chosen
  {
    forall p | p in pkgs && KeyOf(p) in user ensures Reached(pkgs, user, p) {
      SelectedIsReached(pkgs, user, p);
    }
    forall a, b | a in pkgs && Reached(pkgs, user, a) && b in pkgs && DependsOn(a, b) ensures Reached(pkgs, user, b) {
      DependencyIsReached(pkgs, user, a, b);
    }
    if Closed(pkgs, user, chosen) {
      forall p | Reached(pkgs, user, p) ensures p in chosen {
        var path :| Path(pkgs, user, path) && path[|path| - 1] == p;
        PathInside(pkgs, user, chosen, path);
      }
    }
  }

  // ----- The algorithm

  // The keys that are needed have a reason.
  ghost predicate Justified(pkgs: set<Package>, user: set<string>, needed: set<string>) {
    forall k | k in needed :: k in user || exists a :: a in pkgs && Reached(pkgs, user, a) && k in Keys(a.dependencies)
  }

  lemma NeededIsReached(pkgs: set<Package>, user: set<string>, needed: set<string>, p: Package)
    requires Justified(pkgs, user, needed) && p in pkgs && KeyOf(p) in needed
    ensures Reached(pkgs, user, p)
  {
    if KeyOf(p) in user {
      SelectedIsReached(pkgs, user, p);
    } else {
      var a :| a in pkgs && Reached(pkgs, user, a) && KeyOf(p) in Keys(a.dependencies);
      DependencyIsReached(pkgs, user, a, p);
    }
  }

  // Of some nodes those that are selected have a reason, and what they depend on
  // is needed.
  ghost predicate Sound(nodes: set<Node>, some: set<Node>, user: set<string>, needed: set<string>)
    reads some
  {
    && user <= needed && Justified(Packages(nodes), user, needed)
    && forall n | n in some && n.selected ::
         Reached(Packages(nodes), user, n.pkg) && KeyOf(n.pkg) in needed && Keys(n.pkg.dependencies) <= needed
  }

  method AddAll(needed: set<string>, dependencies: seq<Dependency>) returns (r: set<string>)
    ensures r == needed + Keys(dependencies)
  {
    r := needed;
    for i := 0 to |dependencies|
      invariant r == needed + Keys(dependencies[..i])
    {
      TakeOneMore(dependencies, i);
      r := r + {Key(dependencies[i].id, dependencies[i].package)};
    }
    TakeAll(dependencies);
  }

  // Selects a node that is needed, and notes what it needs.
  method Select(node: Node, ghost nodes: set<Node>, ghost some: set<Node>, ghost user: set<string>, needed: set<string>)
    returns (r: set<string>)
    requires node in nodes && Sound(nodes, some, user, needed) && KeyOf(node.pkg) in needed
    modifies node
    ensures node.selected && Sound(nodes, some + {node}, user, r) && needed <= r
  {
    assert node.pkg in Packages(nodes);
    NeededIsReached(Packages(nodes), user, needed, node.pkg);
    r := AddAll(needed, node.pkg.dependencies);
    node.selected := true;
  }

  ghost function Upto(tree: Tree, i: nat, j: nat): set<Node>
    requires i <= |tree| && (i < |tree| ==> j <= |tree[i]|)
  {
    set k, l | 0 <= k < |tree| && 0 <= l < |tree[k]| && (k < i || (k == i && l < j)) :: tree[k][l]
  }

  lemma UptoOneMore(tree: Tree, i: nat, j: nat)
    requires i < |tree| && j < |tree[i]|
    ensures Upto(tree, i, j + 1) == Upto(tree, i, j) + {tree[i][j]}
    ensures tree[i][j] in Nodes(tree) && Upto(tree, i, j) <= Nodes(tree)
  {
  }

  lemma UptoNextMod(tree: Tree, i: nat)
    requires i < |tree|
    ensures Upto(tree, i + 1, 0) == Upto(tree, i, |tree[i]|)
  {
  }

  lemma UptoAll(tree: Tree)
    ensures Upto(tree, |tree|, 0) == Nodes(tree) && Upto(tree, 0, 0) == {}
  {
  }

  // The selection starts with what the user selected.
  method StartSelection(tree: Tree, user: set<string>) returns (needed: set<string>)
    modifies Nodes(tree)
    ensures Sound(Nodes(tree), Nodes(tree), user, needed)
    ensures forall n | n in Nodes(tree) :: n.selected <==> KeyOf(n.pkg) in user
  {
    needed := user;
    ghost var nodes := Nodes(tree);
    for i := 0 to |tree|
      invariant Sound(nodes, Upto(tree, i, 0), user, needed)
      invariant forall n | n in Upto(tree, i, 0) :: n.selected <==> KeyOf(n.pkg) in user
    {
      for j := 0 to |tree[i]|
        invariant Sound(nodes, Upto(tree, i, j), user, needed)
        invariant forall n | n in Upto(tree, i, j) :: n.selected <==> KeyOf(n.pkg) in user
      {
        var node := tree[i][j];
        UptoOneMore(tree, i, j);
        if KeyOf(node.pkg) in user {
          needed := Select(node, nodes, Upto(tree, i, j), user, needed);
        } else {
          node.selected := false;
        }
      }
      UptoNextMod(tree, i);
    }
    UptoAll(tree);
  }

  // Nothing that is needed is left, among some of the nodes.
  ghost predicate Settled(some: set<Node>, needed: set<string>)
    reads some
  {
    forall n | n in some :: n.selected || KeyOf(n.pkg) !in needed
  }

  ghost function Unselected(nodes: set<Node>): set<Node>
    reads nodes
  {
    set n | n in nodes && !n.selected
  }

  // In the middle of a turn: something was selected, or nothing was and the nodes
  // so far are settled.
  ghost predicate Turning(nodes: set<Node>, some: set<Node>, start: set<Node>, needed: set<string>, r: set<string>,
                          changes: bool)
    reads nodes, some
  {
    if changes then Unselected(nodes) < start
    else Unselected(nodes) == start && r == needed && Settled(some, r)
  }

  method Visit(node: Node, ghost nodes: set<Node>, ghost some: set<Node>, ghost start: set<Node>,
               ghost user: set<string>, ghost needed: set<string>, sofar: set<string>, changed: bool)
    returns (r: set<string>, changes: bool)
    requires node in nodes && some <= nodes && Sound(nodes, nodes, user, sofar)
    requires Turning(nodes, some, start, needed, sofar, changed)
    modifies node
    ensures Sound(nodes, nodes, user, r) && Turning(nodes, some + {node}, start, needed, r, changes)
  {
    r, changes := sofar, changed;
    if !node.selected && KeyOf(node.pkg) in sofar {
      assert node in Unselected(nodes) && nodes + {node} == nodes;
      r := Select(node, nodes, nodes, user, sofar);
      changes := true;
    }
  }

  // One turn over the whole tree.
  method Turn(tree: Tree, ghost user: set<string>, needed: set<string>) returns (r: set<string>, changes: bool)
    requires Sound(Nodes(tree), Nodes(tree), user, needed)
    modifies Nodes(tree)
    ensures Sound(Nodes(tree), Nodes(tree), user, r)
    ensures Turning(Nodes(tree), Nodes(tree), old(Unselected(Nodes(tree))), needed, r, changes)
  {
    r, changes := needed, false;
    ghost var nodes, start := Nodes(tree), Unselected(Nodes(tree));
    UptoAll(tree);
    for i := 0 to |tree|
      invariant Sound(nodes, nodes, user, r) && Turning(nodes, Upto(tree, i, 0), start, needed, r, changes)
    {
      for j := 0 to |tree[i]|
        invariant Sound(nodes, nodes, user, r) && Turning(nodes, Upto(tree, i, j), start, needed, r, changes)
      {
        UptoOneMore(tree, i, j);
        r, changes := Visit(tree[i][j], nodes, Upto(tree, i, j), start, user, needed, r, changes);
      }
      UptoNextMod(tree, i);
    }
  }

  lemma SettledIsReached(nodes: set<Node>, user: set<string>, needed: set<string>, chosen: set<Package>)
    requires Sound(nodes, nodes, user, needed) && Settled(nodes, needed)
    requires forall p :: p in chosen <==> exists n :: n in nodes && n.selected && n.pkg == p
    ensures forall n | n in nodes :: n.selected <==> Reached(Packages(nodes), user, n.pkg)
  {
    var pkgs := Packages(nodes);
    forall p | p in pkgs && KeyOf(p) in needed ensures p in chosen {
      var n :| n in nodes && n.pkg == p;
      assert n.selected;
    }
    assert Closed(pkgs, user, chosen);
    ReachedIsLeastClosed(pkgs, user, chosen);
    forall n | n in nodes && Reached(pkgs, user, n.pkg) ensures n.selected {
      assert n.pkg in chosen;
      var m :| m in nodes && m.selected && m.pkg == n.pkg;
      assert KeyOf(m.pkg) in needed;
    }
  }

  // A node is selected in the end if and only if its package is reached from the
  // user's selection, whatever was selected before and whatever the order of the nodes.
  method ProcessDependencies(tree: Tree, user: set<string>)
    modifies Nodes(tree)
    ensures forall n | n in Nodes(tree) :: n.selected <==> Reached(Packages(Nodes(tree)), user, n.pkg)
  {
    var needed := StartSelection(tree, user);
    var changes := true;
    while changes
      invariant Sound(Nodes(tree), Nodes(tree), user, needed)
      invariant !changes ==> Settled(Nodes(tree), needed)
      decreases Unselected(Nodes(tree)), changes
    {
      needed, changes := Turn(tree, user, needed);
    }
    SettledIsReached(Nodes(tree), user, needed, set n | n in Nodes(tree) && n.selected :: n.pkg);
  }
}
