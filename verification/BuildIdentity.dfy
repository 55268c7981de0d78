/** Discovery of build inputs and the build identity over them (src/apps/husklet/build.rs). */
module BuildIdentity {
  import opened Framing
  import opened Sorting
  import Hex

  type Path = seq<string>

  /** What a root leads to: a file, or a directory listed in whatever order the system reports. */
  datatype Tree = File | Directory(entries: seq<Entry>)

  datatype Entry = Entry(name: string, tree: Tree)

  datatype Root = Root(path: Path, tree: Tree)

  // ------------------------------------------------------------- discovery

  predicate Skipped(name: string) {
    name == "target" || name == ".git"
  }

  ghost function FilesBelow(path: Path, tree: Tree): multiset<Path>
    decreases tree, 1
  {
    match tree
    case File => multiset{path}
    case Directory(entries) => FilesIn(path, entries)
  }

  ghost function FilesIn(path: Path, entries: seq<Entry>): multiset<Path>
    decreases entries, 0
  {
    if entries == [] then multiset{}
    else
      (if Skipped(entries[0].name) then multiset{} else FilesBelow(path + [entries[0].name], entries[0].tree)) +
      FilesIn(path, entries[1..])
  }

  ghost function FilesOf(roots: seq<Root>): multiset<Path> {
    if roots == [] then multiset{} else FilesBelow(roots[0].path, roots[0].tree) + FilesOf(roots[1..])
  }

  lemma {:induction false} FilesInAppend(path: Path, a: seq<Entry>, b: seq<Entry>)
    ensures FilesIn(path, a + b) == FilesIn(path, a) + FilesIn(path, b)
  {
    if a == [] {
      assert a + b == b;
    } else {
      assert (a + b)[1..] == a[1..] + b;
      FilesInAppend(path, a[1..], b);
    }
  }

  lemma FilesInNext(path: Path, entries: seq<Entry>, i: nat)
    requires i < |entries|
    ensures FilesIn(path, entries[..i + 1]) ==
            FilesIn(path, entries[..i]) +
            (if Skipped(entries[i].name) then multiset{} else FilesBelow(path + [entries[i].name], entries[i].tree))
  {
    assert entries[..i + 1] == entries[..i] + [entries[i]];
    FilesInAppend(path, entries[..i], [entries[i]]);
    assert FilesIn(path, [entries[i]][1..]) == multiset{};
  }

  lemma FilesInWithout(path: Path, b: seq<Entry>, k: nat)
    requires k < |b|
    ensures FilesIn(path, b) == FilesIn(path, [b[k]]) + FilesIn(path, b[..k] + b[k + 1..])
  {
    assert b == b[..k] + ([b[k]] + b[k + 1..]);
    FilesInAppend(path, b[..k], [b[k]] + b[k + 1..]);
    FilesInAppend(path, [b[k]], b[k + 1..]);
    FilesInAppend(path, b[..k], b[k + 1..]);
  }

  lemma {:induction false} FilesInPermuted(path: Path, a: seq<Entry>, b: seq<Entry>)
    requires multiset(a) == multiset(b)
    ensures FilesIn(path, a) == FilesIn(path, b)
    decreases |a|
  {
    if a == [] {
      assert |b| == |multiset(b)| == 0;
    } else {
      var k := Extract(a, b);
      FilesInWithout(path, b, k);
      FilesInWithout(path, a, 0);
      assert a[..0] + a[1..] == a[1..];
      FilesInPermuted(path, a[1..], b[..k] + b[k + 1..]);
    }
  }

  /** `entries.sort()` on the paths of one directory. */
  function SortListing(path: Path, entries: seq<Entry>, le: (Path, Path) -> bool): seq<Entry> {
    Sort(entries, (a: Entry, b: Entry) => le(path + [a.name], path + [b.name]))
  }

  /** Sorting a listing neither drops nor adds an entry. */
  lemma SortedListing(path: Path, entries: seq<Entry>, le: (Path, Path) -> bool)
    ensures FilesIn(path, SortListing(path, entries, le)) == FilesIn(path, entries)
    ensures forall i :: 0 <= i < |SortListing(path, entries, le)| ==> SortListing(path, entries, le)[i] in entries
  {
    var sorted := SortListing(path, entries, le);
    SortPermutes(entries, (a: Entry, b: Entry) => le(path + [a.name], path + [b.name]));
    FilesInPermuted(path, entries, sorted);
    SameElements(sorted, entries);
  }

  class RuntimeIdentityInputs {
    var paths: seq<Path>

    constructor ()
      ensures paths == []
    {
      paths := [];
    }

    method Add(path: Path, tree: Tree, le: (Path, Path) -> bool)
      modifies this
      ensures multiset(paths) == multiset(old(paths)) + FilesBelow(path, tree)
      decreases tree
    {
      if tree.File? {
        paths := paths + [path];
        return;
      }
      ghost var before := multiset(paths);
      var entries := SortListing(path, tree.entries, le);
      SortedListing(path, tree.entries, le);
      for i := 0 to |entries|
        invariant multiset(paths) == before + FilesIn(path, entries[..i])
      {
        assert entries[i] in tree.entries;
        FilesInNext(path, entries, i);
        if Skipped(entries[i].name) {
          continue;
        }
        Add(path + [entries[i].name], entries[i].tree, le);
      }
      assert entries[..|entries|] == entries;
    }
  }

  /** All visible files of all roots, sorted. */
  method Discover(roots: seq<Root>, le: (Path, Path) -> bool)
    returns (paths: seq<Path>)
    requires TotalOrder(le)
    ensures Sorted(paths, le) && multiset(paths) == FilesOf(roots)
  {
    var inputs := new RuntimeIdentityInputs();
    for i := 0 to |roots|
      invariant multiset(inputs.paths) == FilesOf(roots[..i])
      invariant fresh(inputs)
    {
      FilesOfNext(roots, i);
      inputs.Add(roots[i].path, roots[i].tree, le);
    }
    assert roots[..|roots|] == roots;
    SortSorts(inputs.paths, le);
    SortPermutes(inputs.paths, le);
    inputs.paths := Sort(inputs.paths, le);
    return inputs.paths;
  }

  lemma {:induction false} FilesOfAppend(a: seq<Root>, b: seq<Root>)
    ensures FilesOf(a + b) == FilesOf(a) + FilesOf(b)
  {
    if a == [] {
      assert a + b == b;
    } else {
      assert (a + b)[1..] == a[1..] + b;
      FilesOfAppend(a[1..], b);
    }
  }

  lemma FilesOfNext(roots: seq<Root>, i: nat)
    requires i < |roots|
    ensures FilesOf(roots[..i + 1]) == FilesOf(roots[..i]) + FilesBelow(roots[i].path, roots[i].tree)
  {
    assert roots[..i + 1] == roots[..i] + [roots[i]];
    FilesOfAppend(roots[..i], [roots[i]]);
    assert FilesOf([roots[i]][1..]) == multiset{};
  }

  // ------------------------------------------------------- what is visible

  /** A file system lists no name twice. */
  ghost predicate WellNamed(tree: Tree)
    decreases tree
  {
    tree.Directory? ==>
      (forall i, j :: 0 <= i < j < |tree.entries| ==> tree.entries[i].name != tree.entries[j].name) &&
      (forall i :: 0 <= i < |tree.entries| ==> WellNamed(tree.entries[i].tree))
  }

  /** Whether walking down the names of `below` passes no skipped entry and ends at a file. */
  ghost predicate Visible(tree: Tree, below: Path)
    decreases tree
  {
    match tree
    case File => below == []
    case Directory(entries) =>
      below != [] && !Skipped(below[0]) &&
      exists i :: 0 <= i < |entries| && entries[i].name == below[0] && Visible(entries[i].tree, below[1..])
  }

  ghost predicate VisibleFrom(path: Path, tree: Tree, file: Path) {
    path <= file && Visible(tree, file[|path|..])
  }

  /** The names lead to a file, whatever they are. */
  ghost predicate Leads(tree: Tree, below: Path)
    decreases tree
  {
    match tree
    case File => below == []
    case Directory(entries) =>
      below != [] && exists i :: 0 <= i < |entries| && entries[i].name == below[0] && Leads(entries[i].tree, below[1..])
  }

  predicate Avoids(below: Path) {
    forall i :: 0 <= i < |below| ==> below[i] != "target" && below[i] != ".git"
  }

  /** The visible files are those that no `target` and no `.git` leads to. */
  lemma {:induction false} VisibleMeans(tree: Tree, below: Path)
    ensures Visible(tree, below) <==> Leads(tree, below) && Avoids(below)
    decreases tree
  {
    if tree.Directory? && below != [] {
      forall i | 0 <= i < |tree.entries|
        ensures Visible(tree.entries[i].tree, below[1..]) <==> Leads(tree.entries[i].tree, below[1..]) && Avoids(below[1..])
      {
        VisibleMeans(tree.entries[i].tree, below[1..]);
      }
      assert Avoids(below) <==> below[0] != "target" && below[0] != ".git" && Avoids(below[1..]) by {
        assert below == [below[0]] + below[1..];
      }
    }
  }

  /** A file appears once if it is visible below the path, otherwise not at all. */
  lemma {:induction false} FilesBelowAreVisible(path: Path, tree: Tree, file: Path)
    requires WellNamed(tree)
    ensures FilesBelow(path, tree)[file] == if VisibleFrom(path, tree, file) then 1 else 0
    decreases tree, 1
  {
    match tree
    case File => assert path <= file && file[|path|..] == [] ==> file == path;
    case Directory(entries) =>
      FilesInAreVisible(path, entries, file);
      if VisibleFrom(path, tree, file) {
        var i :| 0 <= i < |entries| && entries[i].name == file[|path|..][0] &&
                 Visible(entries[i].tree, file[|path|..][1..]);
        assert Through(path, entries[i], file);
      }
      if i :| 0 <= i < |entries| && Through(path, entries[i], file) {
        assert file[|path|..][1..] == file[|path| + 1..];
      }
  }

  /** The file is reached through this entry of the directory at `path`. */
  ghost predicate Through(path: Path, entry: Entry, file: Path) {
    path < file && file[|path|] == entry.name && !Skipped(entry.name) && Visible(entry.tree, file[|path| + 1..])
  }

  lemma {:induction false} FilesInAreVisible(path: Path, entries: seq<Entry>, file: Path)
    requires forall i, j :: 0 <= i < j < |entries| ==> entries[i].name != entries[j].name
    requires forall i :: 0 <= i < |entries| ==> WellNamed(entries[i].tree)
    ensures FilesIn(path, entries)[file] ==
            if exists i :: 0 <= i < |entries| && Through(path, entries[i], file) then 1 else 0
    decreases entries, 0
  {
    if entries != [] {
      var here, rest := path + [entries[0].name], entries[1..];
      FilesBelowAreVisible(here, entries[0].tree, file);
      FilesInAreVisible(path, rest, file);
      ThroughFirst(path, entries[0], file);
      OneOrLater(path, entries, rest, file);
    }
  }

  lemma ThroughFirst(path: Path, entry: Entry, file: Path)
    ensures VisibleFrom(path + [entry.name], entry.tree, file) && !Skipped(entry.name) <==> Through(path, entry, file)
  {
    var here := path + [entry.name];
    if path < file && file[|path|] == entry.name {
      assert here == file[..|path| + 1];
    }
    if here <= file {
      assert file[|path|] == here[|path|];
    }
  }

  /** At most one entry leads to the file: the first, or one of the others. */
  lemma OneOrLater(path: Path, entries: seq<Entry>, rest: seq<Entry>, file: Path)
    requires entries != [] && rest == entries[1..]
    requires forall i, j :: 0 <= i < j < |entries| ==> entries[i].name != entries[j].name
    ensures (exists i :: 0 <= i < |entries| && Through(path, entries[i], file)) <==>
            Through(path, entries[0], file) || exists i :: 0 <= i < |rest| && Through(path, rest[i], file)
    ensures Through(path, entries[0], file) ==> !exists i :: 0 <= i < |rest| && Through(path, rest[i], file)
  {
    assert forall i :: 1 <= i < |entries| ==> entries[i] == rest[i - 1];
    forall i | 0 <= i < |rest|
      ensures rest[i].name != entries[0].name
    {
      assert rest[i] == entries[i + 1];
    }
  }

  /** The two roots stand at the same path and show the same files. */
  ghost predicate SameView(a: Root, b: Root) {
    a.path == b.path && WellNamed(a.tree) && WellNamed(b.tree) &&
    forall below :: Visible(a.tree, below) <==> Visible(b.tree, below)
  }

  /** The same tree listed in another order, in every directory: each entry of either listing has one
      with its name, and a relisted subtree, in the other. */
  ghost predicate Relisted(a: Tree, b: Tree)
    decreases a, 0
  {
    match a
    case File => b.File?
    case Directory(entries) =>
      b.Directory? &&
      (forall i :: 0 <= i < |entries| ==> ListedIn(entries[i], b.entries)) &&
      (forall j :: 0 <= j < |b.entries| ==> ListedFrom(entries, b.entries[j]))
  }

  ghost predicate ListedIn(entry: Entry, entries: seq<Entry>)
    decreases entry.tree, 1
  {
    exists j :: 0 <= j < |entries| && entries[j].name == entry.name && Relisted(entry.tree, entries[j].tree)
  }

  ghost predicate ListedFrom(entries: seq<Entry>, entry: Entry)
    decreases entries, 0
  {
    exists i :: 0 <= i < |entries| && entries[i].name == entry.name && Relisted(entries[i].tree, entry.tree)
  }

  /** A visible file stays visible when relisted. */
  lemma {:induction false} RelistedShows(a: Tree, b: Tree, below: Path)
    requires Relisted(a, b) && Visible(a, below)
    ensures Visible(b, below)
    decreases a
  {
    if a.Directory? {
      var i :| 0 <= i < |a.entries| && a.entries[i].name == below[0] && Visible(a.entries[i].tree, below[1..]);
      assert ListedIn(a.entries[i], b.entries);
      var j :| 0 <= j < |b.entries| && b.entries[j].name == a.entries[i].name && Relisted(a.entries[i].tree, b.entries[j].tree);
      RelistedShows(a.entries[i].tree, b.entries[j].tree, below[1..]);
    }
  }

  /** A file visible after relisting was visible before. */
  lemma {:induction false} RelistedHides(a: Tree, b: Tree, below: Path)
    requires Relisted(a, b) && Visible(b, below)
    ensures Visible(a, below)
    decreases a
  {
    if a.Directory? {
      var j :| 0 <= j < |b.entries| && b.entries[j].name == below[0] && Visible(b.entries[j].tree, below[1..]);
      assert ListedFrom(a.entries, b.entries[j]);
      var i :| 0 <= i < |a.entries| && a.entries[i].name == b.entries[j].name && Relisted(a.entries[i].tree, b.entries[j].tree);
      RelistedHides(a.entries[i].tree, b.entries[j].tree, below[1..]);
    }
  }

  /** A root found by a build that lists directories in another order. */
  ghost predicate RelistedRoot(a: Root, b: Root) {
    a.path == b.path && WellNamed(a.tree) && WellNamed(b.tree) && Relisted(a.tree, b.tree)
  }

  lemma RelistedSameView(a: Root, b: Root)
    requires RelistedRoot(a, b)
    ensures SameView(a, b)
  {
    forall below
      ensures Visible(a.tree, below) <==> Visible(b.tree, below)
    {
      if Visible(a.tree, below) {
        RelistedShows(a.tree, b.tree, below);
      }
      if Visible(b.tree, below) {
        RelistedHides(a.tree, b.tree, below);
      }
    }
  }

  lemma SameViewSameFiles(a: Root, b: Root)
    requires SameView(a, b)
    ensures FilesBelow(a.path, a.tree) == FilesBelow(b.path, b.tree)
  {
    forall file ensures FilesBelow(a.path, a.tree)[file] == FilesBelow(b.path, b.tree)[file] {
      FilesBelowAreVisible(a.path, a.tree, file);
      FilesBelowAreVisible(b.path, b.tree, file);
    }
  }

  lemma {:induction false} SameViewsSameFiles(a: seq<Root>, b: seq<Root>)
    requires |a| == |b| && forall i :: 0 <= i < |a| ==> SameView(a[i], b[i])
    ensures FilesOf(a) == FilesOf(b)
  {
    if a != [] {
      SameViewSameFiles(a[0], b[0]);
      SameViewsSameFiles(a[1..], b[1..]);
    }
  }

  lemma CutRoots(b: seq<Root>, k: nat)
    requires k < |b|
    ensures b == b[..k] + ([b[k]] + b[k + 1..])
  {
  }

  lemma FilesOfThree(front: seq<Root>, middle: seq<Root>, back: seq<Root>)
    ensures FilesOf(front + (middle + back)) == FilesOf(middle) + FilesOf(front + back)
  {
    FilesOfAppend(front, middle + back);
    FilesOfAppend(middle, back);
    FilesOfAppend(front, back);
  }

  lemma FilesOfWithout(b: seq<Root>, k: nat)
    requires k < |b|
    ensures FilesOf(b) == FilesOf([b[k]]) + FilesOf(b[..k] + b[k + 1..])
  {
    CutRoots(b, k);
    FilesOfThree(b[..k], [b[k]], b[k + 1..]);
  }

  lemma {:induction false} PermutedRootsSameFiles(a: seq<Root>, b: seq<Root>)
    requires multiset(a) == multiset(b)
    ensures FilesOf(a) == FilesOf(b)
    decreases |a|
  {
    if a == [] {
      assert |b| == |multiset(b)| == 0;
    } else {
      var k := Extract(a, b);
      FilesOfWithout(b, k);
      FilesOfWithout(a, 0);
      assert a[..0] + a[1..] == a[1..];
      PermutedRootsSameFiles(a[1..], b[..k] + b[k + 1..]);
    }
  }

  // -------------------------------------------------------------- identity

  /** How the build sees the world: path encoding, file contents and the digest. */
  datatype World = World(encode: Path -> Bytes, read: Path -> Bytes, sha256: Bytes -> Bytes)

  function Relative(workspace: Path, file: Path): Path {
    if workspace <= file then file[|workspace|..] else file
  }

  function Parts(workspace: Path, world: World, files: seq<Path>): seq<Bytes> {
    if files == [] then []
    else [world.encode(Relative(workspace, files[0])), world.read(files[0])] + Parts(workspace, world, files[1..])
  }

  /** The file list a build sees, in the only order sorting allows. */
  ghost predicate Inputs(files: seq<Path>, roots: seq<Root>, le: (Path, Path) -> bool) {
    Sorted(files, le) && multiset(files) == FilesOf(roots)
  }

  /** The digest is taken over the one list of inputs there is, whatever way it was found. */
  method Identity(workspace: Path, roots: seq<Root>, world: World, le: (Path, Path) -> bool) returns (text: string)
    requires TotalOrder(le)
    ensures exists files :: Inputs(files, roots, le)
    ensures forall files :: Inputs(files, roots, le) ==>
              text == HexText(world.sha256(Frame(Parts(workspace, world, files))))
  {
    var paths := Discover(roots, le);
    var stream: Bytes := [];
    for i := 0 to |paths|
      invariant stream == Frame(Parts(workspace, world, paths[..i]))
    {
      var relative := Relative(workspace, paths[i]);
      var bytes := world.read(paths[i]);
      NextFile(workspace, world, paths, i);
      stream := stream + LittleEndian(|world.encode(relative)|, U64_BYTES);
      stream := stream + world.encode(relative);
      stream := stream + LittleEndian(|bytes|, U64_BYTES);
      stream := stream + bytes;
    }
    text := HexText(world.sha256(stream));
    assert paths[..|paths|] == paths && Inputs(paths, roots, le);
    forall files | Inputs(files, roots, le)
      ensures files == paths
    {
      SortedUnique(files, paths, le);
    }
  }

  function HexText(digest: Bytes): string {
    if digest == [] then "" else Hex.Padded(digest[0] as int, 2) + HexText(digest[1..])
  }

  lemma {:induction false} PartsAppend(workspace: Path, world: World, a: seq<Path>, b: seq<Path>)
    ensures Parts(workspace, world, a + b) == Parts(workspace, world, a) + Parts(workspace, world, b)
  {
    if a == [] {
      assert a + b == b;
    } else {
      assert (a + b)[1..] == a[1..] + b;
      PartsAppend(workspace, world, a[1..], b);
    }
  }

  lemma NextFile(workspace: Path, world: World, paths: seq<Path>, i: nat)
    requires i < |paths|
    ensures var name, bytes := world.encode(Relative(workspace, paths[i])), world.read(paths[i]);
            Frame(Parts(workspace, world, paths[..i + 1])) ==
            Frame(Parts(workspace, world, paths[..i])) + LittleEndian(|name|, U64_BYTES) + name +
            LittleEndian(|bytes|, U64_BYTES) + bytes
  {
    var name, bytes := world.encode(Relative(workspace, paths[i])), world.read(paths[i]);
    assert paths[..i + 1] == paths[..i] + [paths[i]];
    PartsAppend(workspace, world, paths[..i], [paths[i]]);
    assert Parts(workspace, world, [paths[i]]) == [name, bytes] + Parts(workspace, world, []) == [name, bytes];
    FrameAppend(Parts(workspace, world, paths[..i]), [name, bytes]);
    FrameTwo(name, bytes);
  }

  lemma FrameTwo(a: Bytes, b: Bytes)
    ensures Frame([a, b]) == LittleEndian(|a|, U64_BYTES) + a + LittleEndian(|b|, U64_BYTES) + b
  {
    assert [a, b][1..] == [b];
    assert Frame([b]) == LittleEndian(|b|, U64_BYTES) + b + Frame([]);
  }

  /** Two builds whose roots are a permutation of roots showing the same files hash the same list. */
  lemma SameFilesSameInputs(a: seq<Root>, b: seq<Root>, seen: seq<Root>, le: (Path, Path) -> bool,
                            filesA: seq<Path>, filesB: seq<Path>)
    requires TotalOrder(le) && Inputs(filesA, a, le) && Inputs(filesB, b, le)
    requires multiset(b) == multiset(seen)
    requires |a| == |seen| && forall i :: 0 <= i < |a| ==> SameView(a[i], seen[i])
    ensures filesA == filesB
  {
    SameViewsSameFiles(a, seen);
    PermutedRootsSameFiles(b, seen);
    SortedUnique(filesA, filesB, le);
  }

  /** The identity does not depend on the order of the roots (`b` permutes `relisted`) nor on the order
      in which any directory below them is enumerated (`relisted` relists `a`): the list of files, and
      with it the digested stream, is the same. */
  lemma IdentityOrderIndependent(workspace: Path, world: World, a: seq<Root>, b: seq<Root>, relisted: seq<Root>,
                                 le: (Path, Path) -> bool, filesA: seq<Path>, filesB: seq<Path>)
    requires TotalOrder(le) && Inputs(filesA, a, le) && Inputs(filesB, b, le)
    requires multiset(b) == multiset(relisted)
    requires |a| == |relisted| && forall i :: 0 <= i < |a| ==> RelistedRoot(a[i], relisted[i])
    ensures filesA == filesB
    ensures Frame(Parts(workspace, world, filesA)) == Frame(Parts(workspace, world, filesB))
  {
    forall i | 0 <= i < |a|
      ensures SameView(a[i], relisted[i])
    {
      RelistedSameView(a[i], relisted[i]);
    }
    SameFilesSameInputs(a, b, relisted, le, filesA, filesB);
  }

  /** Each file takes two parts of the stream, its relative path and then its contents. */
  lemma {:induction false} PartsAt(workspace: Path, world: World, files: seq<Path>, i: nat)
    requires i < |files|
    ensures |Parts(workspace, world, files)| == 2 * |files|
    ensures Parts(workspace, world, files)[2 * i] == world.encode(Relative(workspace, files[i]))
    ensures Parts(workspace, world, files)[2 * i + 1] == world.read(files[i])
  {
    var rest := Parts(workspace, world, files[1..]);
    assert Parts(workspace, world, files) == [world.encode(Relative(workspace, files[0])), world.read(files[0])] + rest;
    if |files| > 1 {
      PartsAt(workspace, world, files[1..], if i > 0 then i - 1 else 0);
    }
  }

  /** What the digest is fed determines, file by file, the relative path and the contents. */
  lemma {:induction false} PartsDetermine(workspace: Path, world: World, files: seq<Path>,
                                          workspace': Path, world': World, files': seq<Path>)
    requires Parts(workspace, world, files) == Parts(workspace', world', files')
    ensures |files| == |files'|
    ensures forall i :: 0 <= i < |files| ==>
              world.encode(Relative(workspace, files[i])) == world'.encode(Relative(workspace', files'[i])) &&
              world.read(files[i]) == world'.read(files'[i])
  {
    var p, p' := Parts(workspace, world, files), Parts(workspace', world', files');
    assert files == [] <==> p == [];
    assert files' == [] <==> p' == [];
    if files != [] {
      assert p[0] == p'[0] && p[1] == p'[1];
      assert p[2..] == Parts(workspace, world, files[1..]) && p'[2..] == Parts(workspace', world', files'[1..]);
      PartsDetermine(workspace, world, files[1..], workspace', world', files'[1..]);
      forall i | 1 <= i < |files|
        ensures world.encode(Relative(workspace, files[i])) == world'.encode(Relative(workspace', files'[i])) &&
                world.read(files[i]) == world'.read(files'[i])
      {
        assert files[i] == files[1..][i - 1] && files'[i] == files'[1..][i - 1];
      }
    }
  }

  lemma IdentityStreamDetermines(workspace: Path, world: World, files: seq<Path>,
                                 workspace': Path, world': World, files': seq<Path>)
    requires Representable(Parts(workspace, world, files)) && Representable(Parts(workspace', world', files'))
    requires Frame(Parts(workspace, world, files)) == Frame(Parts(workspace', world', files'))
    ensures |files| == |files'|
    ensures forall i :: 0 <= i < |files| ==>
              world.encode(Relative(workspace, files[i])) == world'.encode(Relative(workspace', files'[i])) &&
              world.read(files[i]) == world'.read(files'[i])
  {
    FrameInjective(Parts(workspace, world, files), Parts(workspace', world', files'));
    PartsDetermine(workspace, world, files, workspace', world', files');
  }

  /** The digest text determines the digest. */
  lemma {:induction false} HexTextInjective(a: Bytes, b: Bytes)
    requires HexText(a) == HexText(b)
    ensures a == b
  {
    HexTextWidth(a);
    HexTextWidth(b);
    if a != [] {
      HexTextNext(a);
      HexTextNext(b);
      assert HexText(a)[..2] == HexText(b)[..2] && HexText(a)[2..] == HexText(b)[2..];
      HexTextInjective(a[1..], b[1..]);
      assert a == [a[0]] + a[1..] && b == [b[0]] + b[1..];
    }
  }

  lemma {:induction false} HexTextWidth(digest: Bytes)
    ensures |HexText(digest)| == 2 * |digest|
  {
    if digest != [] {
      assert Hex.Pow16(2) == 256;
      Hex.PaddedWidth(digest[0] as int, 2);
      HexTextWidth(digest[1..]);
    }
  }

  lemma HexTextNext(digest: Bytes)
    requires digest != []
    ensures HexText(digest)[..2] == Hex.Padded(digest[0] as int, 2) && HexText(digest)[2..] == HexText(digest[1..])
    ensures Hex.FromHex(HexText(digest)[..2]) == digest[0] as int
  {
    assert Hex.Pow16(2) == 256;
    Hex.PaddedWidth(digest[0] as int, 2);
    Hex.FromPadded(digest[0] as int, 2);
  }

  // ---------------------------------------------------- moving the checkout

  /** A file below the workspace is named without it, and any other by its whole path. */
  lemma RelativeMeans(workspace: Path, file: Path)
    ensures forall rest :: file == workspace + rest ==> Relative(workspace, file) == rest
    ensures (forall rest :: file != workspace + rest) ==> Relative(workspace, file) == file
  {
    if workspace <= file {
      assert file == workspace + file[|workspace|..];
    }
  }

  /** The path order compares component by component, so a common front does not matter. */
  ghost predicate Componentwise(le: (Path, Path) -> bool) {
    forall front, a, b :: FrontIgnored(le, front, a, b)
  }

  ghost predicate FrontIgnored(le: (Path, Path) -> bool, front: Path, a: Path, b: Path) {
    le(front + a, front + b) <==> le(a, b)
  }

  function Placed(workspace: Path, rests: seq<Path>): seq<Path> {
    if rests == [] then [] else [workspace + rests[0]] + Placed(workspace, rests[1..])
  }

  function PlacedRoots(workspace: Path, roots: seq<Root>): seq<Root> {
    if roots == [] then []
    else [Root(workspace + roots[0].path, roots[0].tree)] + PlacedRoots(workspace, roots[1..])
  }

  lemma {:induction false} PlacedAt(workspace: Path, rests: seq<Path>)
    ensures |Placed(workspace, rests)| == |rests|
    ensures forall i :: 0 <= i < |rests| ==> Placed(workspace, rests)[i] == workspace + rests[i]
  {
    if rests != [] {
      PlacedAt(workspace, rests[1..]);
      assert forall i :: 1 <= i < |rests| ==> rests[i] == rests[1..][i - 1];
    }
  }

  lemma {:induction false} PlacedCount(workspace: Path, rests: seq<Path>, file: Path)
    ensures multiset(Placed(workspace, rests))[file] ==
            if workspace <= file then multiset(rests)[file[|workspace|..]] else 0
  {
    if rests != [] {
      PlacedCount(workspace, rests[1..], file);
      assert rests == [rests[0]] + rests[1..];
      assert multiset(rests) == multiset{rests[0]} + multiset(rests[1..]);
      assert multiset(Placed(workspace, rests)) == multiset{workspace + rests[0]} + multiset(Placed(workspace, rests[1..]));
      assert workspace <= file && rests[0] == file[|workspace|..] <==> file == workspace + rests[0];
    }
  }

  lemma VisiblePlaced(workspace: Path, path: Path, tree: Tree, file: Path)
    ensures VisibleFrom(workspace + path, tree, file) <==>
            workspace <= file && VisibleFrom(path, tree, file[|workspace|..])
  {
    PlacedPrefix(workspace, path, file);
    if workspace + path <= file {
      assert file[|workspace + path|..] == file[|workspace|..][|path|..];
    }
  }

  lemma PlacedPrefix(workspace: Path, path: Path, file: Path)
    ensures workspace + path <= file <==> workspace <= file && path <= file[|workspace|..]
  {
    if workspace + path <= file {
      assert file[..|workspace|] == workspace && file[|workspace|..][..|path|] == path;
    }
    if workspace <= file && path <= file[|workspace|..] {
      assert file == workspace + (path + file[|workspace|..][|path|..]);
    }
  }

  lemma {:induction false} FilesPlaced(workspace: Path, roots: seq<Root>, file: Path)
    requires forall i :: 0 <= i < |roots| ==> WellNamed(roots[i].tree)
    ensures FilesOf(PlacedRoots(workspace, roots))[file] ==
            if workspace <= file then FilesOf(roots)[file[|workspace|..]] else 0
  {
    if roots != [] {
      var root := roots[0];
      FilesPlaced(workspace, roots[1..], file);
      FilesBelowAreVisible(workspace + root.path, root.tree, file);
      VisiblePlaced(workspace, root.path, root.tree, file);
      if workspace <= file {
        FilesBelowAreVisible(root.path, root.tree, file[|workspace|..]);
      }
      assert PlacedRoots(workspace, roots)[1..] == PlacedRoots(workspace, roots[1..]);
    }
  }

  /** The inputs of a checkout are those of its roots taken relative to it, wherever it lies. */
  lemma PlacedInputs(workspace: Path, roots: seq<Root>, rests: seq<Path>, le: (Path, Path) -> bool)
    requires Componentwise(le) && Inputs(rests, roots, le)
    requires forall i :: 0 <= i < |roots| ==> WellNamed(roots[i].tree)
    ensures Inputs(Placed(workspace, rests), PlacedRoots(workspace, roots), le)
  {
    var files := Placed(workspace, rests);
    PlacedAt(workspace, rests);
    forall i, j | 0 <= i < j < |files|
      ensures le(files[i], files[j])
    {
      assert FrontIgnored(le, workspace, rests[i], rests[j]);
    }
    forall file
      ensures multiset(files)[file] == FilesOf(PlacedRoots(workspace, roots))[file]
    {
      PlacedCount(workspace, rests, file);
      FilesPlaced(workspace, roots, file);
    }
  }

  lemma {:induction false} PlacedParts(workspace: Path, world: World, moved: Path, world': World, rests: seq<Path>)
    requires world'.encode == world.encode
    requires forall rest :: rest in rests ==> world'.read(moved + rest) == world.read(workspace + rest)
    ensures Parts(moved, world', Placed(moved, rests)) == Parts(workspace, world, Placed(workspace, rests))
  {
    if rests != [] {
      assert rests[0] in rests && forall rest :: rest in rests[1..] ==> rest in rests;
      RelativeMeans(workspace, workspace + rests[0]);
      RelativeMeans(moved, moved + rests[0]);
      PlacedParts(workspace, world, moved, world', rests[1..]);
      assert Placed(workspace, rests)[1..] == Placed(workspace, rests[1..]);
      assert Placed(moved, rests)[1..] == Placed(moved, rests[1..]);
    }
  }

  lemma SomeInputs(roots: seq<Root>, le: (Path, Path) -> bool) returns (files: seq<Path>)
    requires TotalOrder(le)
    ensures Inputs(files, roots, le)
  {
    var listed := Listed(FilesOf(roots));
    files := Sort(listed, le);
    SortSorts(listed, le);
    SortPermutes(listed, le);
  }

  /** The elements of a multiset, in some order. */
  ghost function Listed(files: multiset<Path>): (s: seq<Path>)
    ensures multiset(s) == files
    decreases |files|
  {
    if files == multiset{} then []
    else
      var file :| file in files;
      [file] + Listed(files - multiset{file})
  }

  /** Moving a checkout with everything in it leaves the digested stream alone, for roots below the
      workspace. */
  lemma MovedCheckoutSameStream(workspace: Path, world: World, moved: Path, world': World, roots: seq<Root>,
                                le: (Path, Path) -> bool, files: seq<Path>, files': seq<Path>)
    requires TotalOrder(le) && Componentwise(le)
    requires forall i :: 0 <= i < |roots| ==> WellNamed(roots[i].tree)
    requires Inputs(files, PlacedRoots(workspace, roots), le) && Inputs(files', PlacedRoots(moved, roots), le)
    requires world'.encode == world.encode
    requires forall rest :: world'.read(moved + rest) == world.read(workspace + rest)
    ensures Frame(Parts(moved, world', files')) == Frame(Parts(workspace, world, files))
  {
    var rests := SomeInputs(roots, le);
    PlacedInputs(workspace, roots, rests, le);
    PlacedInputs(moved, roots, rests, le);
    SortedUnique(files, Placed(workspace, rests), le);
    SortedUnique(files', Placed(moved, rests), le);
    PlacedParts(workspace, world, moved, world', rests);
  }

  /** The program takes the workspace as three levels above the crate, spelled with `..`. */
  function WorkspaceOf(crate: Path): Path {
    crate + ["..", "..", ".."]
  }

  /** So the files of its own crate are not below it, and enter the stream by their whole path: from two
      places of the crate the streams differ. */
  lemma CrateFilesShowPlace(crate: Path, world: World, files: seq<Path>, crate': Path, world': World, files': seq<Path>,
                            rest: Path, i: nat)
    requires rest != [] && rest[0] != ".." && crate != crate'
    requires i < |files| && files[i] == crate + rest && i < |files'| && files'[i] == crate' + rest
    requires forall a, b :: world.encode(a) == world'.encode(b) ==> a == b
    requires Representable(Parts(WorkspaceOf(crate), world, files))
    requires Representable(Parts(WorkspaceOf(crate'), world', files'))
    ensures Frame(Parts(WorkspaceOf(crate), world, files)) != Frame(Parts(WorkspaceOf(crate'), world', files'))
  {
    NotBelow(crate, rest);
    NotBelow(crate', rest);
    SameRest(crate, crate', rest);
    if Frame(Parts(WorkspaceOf(crate), world, files)) == Frame(Parts(WorkspaceOf(crate'), world', files')) {
      IdentityStreamDetermines(WorkspaceOf(crate), world, files, WorkspaceOf(crate'), world', files');
    }
  }

  lemma NotBelow(crate: Path, rest: Path)
    requires rest != [] && rest[0] != ".."
    ensures Relative(WorkspaceOf(crate), crate + rest) == crate + rest
  {
    PlacedPrefix(crate, ["..", "..", ".."], crate + rest);
    assert (crate + rest)[|crate|..] == rest;
  }

  lemma SameRest(a: Path, b: Path, rest: Path)
    ensures a + rest == b + rest ==> a == b
  {
    if a + rest == b + rest {
      assert a == (a + rest)[..|a|] && b == (b + rest)[..|b|];
    }
  }
}
