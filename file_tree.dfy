/** The folder browser: the flat file listing of one folder turned into a directory
    tree (a root directory "/root", one directory per distinct path prefix, one file
    node per file with a non-empty path), the counters shown above each tree, the
    change summary, and what a click on a node does. The tree is a value here: the
    browser builds it by mutating shared nodes, which this model expresses by rebuilding
    the path from the root to the changed directory. */
module FileTree {
  import opened Common

  /** One row of the listing as the browser receives it; any field may be missing. */
  datatype FileRecord = FileRecord(path: Option<string>, sizeBytes: Option<nat>, comparisonResult: Option<string>)

  /** What a file node remembers of its row. */
  datatype FileData = FileData(path: string, sizeBytes: nat, comparisonResult: string)

  datatype Node =
    | Directory(uri: string, expanded: bool, children: seq<Node>)
    | File(uri: string, data: FileData)

  predicate NonEmpty(s: string) { s != "" }

  /** The '/'-separated segments of a path, empty segments dropped, after a leading
      '/' has been added to a path that lacks one. */
  function Segments(path: string): seq<string>
  {
    var normalized := if |path| > 0 && path[0] == '/' then path else "/" + path;
    Filter(Split(normalized, '/'), NonEmpty)
  }

  /** The leading '/' added by normalisation changes no segment. */
  lemma NormalizationKeepsSegments(path: string)
    requires path != "" && path[0] != '/'
    ensures Segments(path) == Filter(Split(path, '/'), NonEmpty)
  {
    assert ("/" + path)[0] == '/' && ("/" + path)[1..] == path;
  }

  /** Segments are non-empty and free of '/'. */
  lemma SegmentsAreNames(path: string)
    ensures forall i :: 0 <= i < |Segments(path)| ==> Segments(path)[i] != "" && '/' !in Segments(path)[i]
  {
    var normalized := if |path| > 0 && path[0] == '/' then path else "/" + path;
    var pieces := Split(normalized, '/');
    SplitPiecesLackSep(normalized, '/');
    FilterMembers(pieces, NonEmpty);
    assert forall i :: 0 <= i < |Segments(path)| ==> Segments(path)[i] in pieces;
  }

  /** The uri reached from `base` by descending through `segs`. */
  function Under(base: string, segs: seq<string>): string
    decreases |segs|
  {
    if segs == [] then base else Under(base + "/" + segs[0], segs[1..])
  }

  /** Descending through the segments appends them, each after a '/'. */
  lemma {:induction false} UnderJoins(base: string, segs: seq<string>)
    requires segs != []
    ensures Under(base, segs) == base + "/" + Join(segs, '/')
    decreases |segs|
  {
    if |segs| > 1 {
      UnderJoins(base + "/" + segs[0], segs[1..]);
      assert Join(segs, '/') == segs[0] + ['/'] + Join(segs[1..], '/');
    }
  }

  /** The uri of a file node: the path of its directory, then its name, which for a path
      made only of '/' is the text "undefined". */
  function FileUri(segs: seq<string>): string
  {
    if segs == [] then "/root/undefined" else Under("/root", segs)
  }

  /** A file's uri is "/root/" followed by its segments joined with '/'. */
  lemma FileUriJoinsSegments(segs: seq<string>)
    ensures FileUri(segs) == "/root/" + (if segs == [] then "undefined" else Join(segs, '/'))
  {
    if segs != [] {
      UnderJoins("/root", segs);
    }
  }

  /** The file node for a row with a path: size 0 and label "baseline" when those are
      missing or empty. */
  function FileNode(path: string, f: FileRecord): (n: Node)
  {
    var size := if f.sizeBytes.Some? then f.sizeBytes.value else 0;
    var status := if Truthy(f.comparisonResult) then f.comparisonResult.value else "baseline";
    File(FileUri(Segments(path)), FileData(path, size, status))
  }

  /** Defaults of a file node. */
  lemma FileNodeDefaults(path: string, f: FileRecord)
    ensures f.sizeBytes.None? ==> FileNode(path, f).data.sizeBytes == 0
    ensures !Truthy(f.comparisonResult) ==> FileNode(path, f).data.comparisonResult == "baseline"
    ensures Truthy(f.comparisonResult) ==> FileNode(path, f).data.comparisonResult == f.comparisonResult.value
    ensures FileNode(path, f).data.path == path
  {
  }

  /** The position of the directory child with uri `uri`, if there is one. */
  function FindDir(cs: seq<Node>, uri: string): (r: Option<nat>)
    ensures r.Some? ==> r.value < |cs| && cs[r.value].Directory? && cs[r.value].uri == uri
    ensures r.None? ==> forall i :: 0 <= i < |cs| && cs[i].Directory? ==> cs[i].uri != uri
  {
    if cs == [] then None
    else if cs[|cs| - 1].Directory? && cs[|cs| - 1].uri == uri then Some(|cs| - 1)
    else FindDir(cs[..|cs| - 1], uri)
  }

  /** Adds `leaf` below the directory whose children are `cs` and whose uri is `cur`,
      walking down the directories named by all segments but the last, and creating
      each one (expanded, at the end of its parent's children) that does not exist yet. */
  function InsertFile(cs: seq<Node>, cur: string, segs: seq<string>, leaf: Node): seq<Node>
    decreases |segs|
  {
    if |segs| <= 1 then cs + [leaf]
    else
      var dirPath := cur + "/" + segs[0];
      match FindDir(cs, dirPath)
      case Some(k) =>
        cs[k := Directory(dirPath, cs[k].expanded, InsertFile(cs[k].children, dirPath, segs[1..], leaf))]
      case None =>
        cs + [Directory(dirPath, true, InsertFile([], dirPath, segs[1..], leaf))]
  }

  /** The root's children after the given rows, in order; rows without a path are skipped. */
  function Grow(files: seq<FileRecord>): seq<Node>
  {
    if files == [] then []
    else
      var cs := Grow(files[..|files| - 1]);
      var f := files[|files| - 1];
      if Truthy(f.path) then InsertFile(cs, "/root", Segments(f.path.value), FileNode(f.path.value, f))
      else cs
  }

  /** The tree of a listing: none for a missing or empty listing, otherwise the expanded
      root directory "/root". */
  method ConvertFilesToTreeFormat(files: Option<seq<FileRecord>>) returns (tree: Option<Node>)
    ensures files.None? || files.value == [] ==> tree.None?
    ensures files.Some? && files.value != [] ==> tree == Some(Directory("/root", true, Grow(files.value)))
  {
    if files.None? || |files.value| == 0 {
      return None;
    }
    var fs := files.value;
    var children: seq<Node> := [];
    var i := 0;
    while i < |fs|
      invariant 0 <= i <= |fs|
      invariant children == Grow(fs[..i])
    {
      var f := fs[i];
      assert fs[..i + 1][..i] == fs[..i];
      if Truthy(f.path) {
        var path := f.path.value;
        children := InsertFile(children, "/root", Segments(path), FileNode(path, f));
      }
      i := i + 1;
    }
    assert fs[..i] == fs;
    tree := Some(Directory("/root", true, children));
  }

  // ----- shape of the tree -----

  /** `uri` names a child of the directory `parent`: the parent's uri, '/', then one
      non-empty name without '/'. */
  predicate ChildUri(parent: string, uri: string)
  {
    |uri| > |parent| + 1 && uri[..|parent| + 1] == parent + "/" && '/' !in uri[|parent| + 1..]
  }

  /** `x` is `u` or lies below it. */
  predicate Below(u: string, x: string)
  {
    x == u || (|x| > |u| && x[..|u| + 1] == u + "/")
  }

  /** No two directory children share a uri. */
  predicate DistinctDirs(cs: seq<Node>)
  {
    forall i, j :: 0 <= i < j < |cs| && cs[i].Directory? && cs[j].Directory? ==> cs[i].uri != cs[j].uri
  }

  /** Every directory's children are named one level below it, and its directory
      children have distinct uris. */
  predicate Tidy(n: Node)
    decreases n, 1
  {
    n.File? || TidyChildren(n.uri, n.children)
  }

  predicate TidyChildren(cur: string, cs: seq<Node>)
    decreases cs, 0
  {
    DistinctDirs(cs) && forall i :: 0 <= i < |cs| ==> ChildUri(cur, cs[i].uri) && Tidy(cs[i])
  }

  lemma ChildUriOf(cur: string, name: string)
    requires name != "" && '/' !in name
    ensures ChildUri(cur, cur + "/" + name)
  {
    assert (cur + "/" + name)[..|cur| + 1] == cur + "/";
    assert (cur + "/" + name)[|cur| + 1..] == name;
  }

  /** Inserting a file keeps the tree tidy. */
  lemma {:induction false} InsertKeepsTidy(cs: seq<Node>, cur: string, segs: seq<string>, leaf: Node)
    requires TidyChildren(cur, cs) && leaf.File?
    requires forall i :: 0 <= i < |segs| ==> segs[i] != "" && '/' !in segs[i]
    requires if segs == [] then ChildUri(cur, leaf.uri) else leaf.uri == Under(cur, segs)
    ensures TidyChildren(cur, InsertFile(cs, cur, segs, leaf))
    decreases |segs|
  {
    var r := InsertFile(cs, cur, segs, leaf);
    if |segs| <= 1 {
      if |segs| == 1 {
        ChildUriOf(cur, segs[0]);
        assert leaf.uri == cur + "/" + segs[0];
      }
      assert r == cs + [leaf];
      assert forall i :: 0 <= i < |cs| ==> r[i] == cs[i];
    } else {
      var dirPath := cur + "/" + segs[0];
      ChildUriOf(cur, segs[0]);
      match FindDir(cs, dirPath)
      case Some(k) =>
        assert Tidy(cs[k]);
        InsertKeepsTidy(cs[k].children, dirPath, segs[1..], leaf);
        var d := Directory(dirPath, cs[k].expanded, InsertFile(cs[k].children, dirPath, segs[1..], leaf));
        assert Tidy(d);
        assert r == cs[k := d];
      case None =>
        InsertKeepsTidy([], dirPath, segs[1..], leaf);
        var d := Directory(dirPath, true, InsertFile([], dirPath, segs[1..], leaf));
        assert Tidy(d);
        assert r == cs + [d];
        assert forall i :: 0 <= i < |cs| ==> r[i] == cs[i];
    }
  }

  /** The root's children are tidy after every row. */
  lemma {:induction false} GrowIsTidy(files: seq<FileRecord>)
    ensures TidyChildren("/root", Grow(files))
  {
    if files != [] {
      var f := files[|files| - 1];
      GrowIsTidy(files[..|files| - 1]);
      if Truthy(f.path) {
        var segs := Segments(f.path.value);
        SegmentsAreNames(f.path.value);
        if segs == [] {
          ChildUriOf("/root", "undefined");
        }
        InsertKeepsTidy(Grow(files[..|files| - 1]), "/root", segs, FileNode(f.path.value, f));
      }
    }
  }

  /** The uris of all directories of a tree, the tree's own first. */
  function DirUris(n: Node): seq<string>
    decreases n, 1
  {
    match n
    case File(_, _) => []
    case Directory(u, _, cs) => [u] + DirUrisIn(cs)
  }

  function DirUrisIn(cs: seq<Node>): seq<string>
    decreases cs, 0
  {
    if cs == [] then [] else DirUrisIn(cs[..|cs| - 1]) + DirUris(cs[|cs| - 1])
  }

  predicate NoDuplicates(xs: seq<string>)
  {
    forall i, j :: 0 <= i < j < |xs| ==> xs[i] != xs[j]
  }

  lemma NoDuplicatesAppend(xs: seq<string>, ys: seq<string>)
    requires NoDuplicates(xs) && NoDuplicates(ys)
    requires forall x :: x in xs ==> x !in ys
    ensures NoDuplicates(xs + ys)
  {
    forall i, j | 0 <= i < j < |xs + ys|
      ensures (xs + ys)[i] != (xs + ys)[j]
    {
      if i < |xs| && j >= |xs| {
        assert (xs + ys)[i] in xs && (xs + ys)[j] == ys[j - |xs|];
      }
    }
  }

  lemma NameHasNoSlash(u: string, b: string, i: nat)
    requires ChildUri(u, b) && |u| + 1 <= i < |b|
    ensures b[i] != '/'
  {
    assert b[i] == b[|u| + 1..][i - |u| - 1];
  }

  lemma BelowSharesPrefix(b: string, x: string, i: nat)
    requires Below(b, x) && i < |b|
    ensures i < |x| && x[i] == b[i]
  {
    if x != b {
      assert x[..|b| + 1][i] == x[i];
    }
  }

  lemma SameLengthBelow(a: string, b: string, x: string)
    requires Below(a, x) && Below(b, x) && |a| == |b|
    ensures a == b
  {
    assert x[..|a|] == a && x[..|b|] == b;
  }

  lemma SlashAfter(a: string, x: string)
    requires Below(a, x) && |x| > |a|
    ensures x[|a|] == '/'
  {
    assert x[..|a| + 1][|a|] == x[|a|];
  }

  /** Everything below one child of `u` is apart from everything below another. */
  lemma DisjointBranches(u: string, a: string, b: string, x: string)
    requires ChildUri(u, a) && ChildUri(u, b) && a != b && Below(a, x)
    ensures !Below(b, x)
  {
    if Below(b, x) {
      if |a| == |b| {
        SameLengthBelow(a, b, x);
        assert false;
      } else if |a| < |b| {
        NameHasNoSlash(u, b, |a|);
        BelowSharesPrefix(b, x, |a|);
        SlashAfter(a, x);
        assert false;
      } else {
        NameHasNoSlash(u, a, |b|);
        BelowSharesPrefix(a, x, |b|);
        SlashAfter(b, x);
        assert false;
      }
    }
  }

  /** Every directory of a tidy tree lies below its root. */
  lemma {:induction false} DirsBelowRoot(n: Node)
    requires Tidy(n)
    ensures forall x :: x in DirUris(n) ==> Below(n.uri, x)
    decreases n, 1
  {
    if n.Directory? {
      DirsBelowParent(n.uri, n.children);
    }
  }

  lemma {:induction false} DirsBelowParent(u: string, cs: seq<Node>)
    requires TidyChildren(u, cs)
    ensures forall x :: x in DirUrisIn(cs) ==> |x| > |u| && x[..|u| + 1] == u + "/"
    decreases cs, 0
  {
    if cs != [] {
      var c := cs[|cs| - 1];
      assert TidyChildren(u, cs[..|cs| - 1]);
      DirsBelowParent(u, cs[..|cs| - 1]);
      DirsBelowRoot(c);
      forall x | x in DirUris(c)
        ensures |x| > |u| && x[..|u| + 1] == u + "/"
      {
        assert x[..|c.uri|][..|u| + 1] == x[..|u| + 1];
      }
    }
  }

  /** Nothing below the directory `d`, a further child of `u` whose uri no directory
      of `cs` has, is a directory of `cs`. */
  lemma {:induction false} BranchApart(u: string, cs: seq<Node>, d: string, y: string)
    requires TidyChildren(u, cs) && ChildUri(u, d) && Below(d, y)
    requires forall i :: 0 <= i < |cs| && cs[i].Directory? ==> cs[i].uri != d
    ensures y !in DirUrisIn(cs)
    decreases cs
  {
    if cs != [] {
      var c := cs[|cs| - 1];
      assert TidyChildren(u, cs[..|cs| - 1]);
      BranchApart(u, cs[..|cs| - 1], d, y);
      if c.Directory? {
        DirsBelowRoot(c);
        DisjointBranches(u, d, c.uri, y);
      }
    }
  }

  /** Directory uris are unique in the whole of a tidy tree. */
  lemma {:induction false} DirUrisUnique(n: Node)
    requires Tidy(n)
    ensures NoDuplicates(DirUris(n))
    decreases n, 1
  {
    if n.Directory? {
      DirUrisUniqueIn(n.uri, n.children);
      DirsBelowParent(n.uri, n.children);
      NoDuplicatesAppend([n.uri], DirUrisIn(n.children));
    }
  }

  lemma {:induction false} DirUrisUniqueIn(u: string, cs: seq<Node>)
    requires TidyChildren(u, cs)
    ensures NoDuplicates(DirUrisIn(cs))
    decreases cs, 0
  {
    if cs != [] {
      var init := cs[..|cs| - 1];
      var c := cs[|cs| - 1];
      assert TidyChildren(u, init);
      DirUrisUniqueIn(u, init);
      DirUrisUnique(c);
      if c.Directory? {
        DirsBelowRoot(c);
        forall y | y in DirUris(c)
          ensures y !in DirUrisIn(init)
        {
          BranchApart(u, init, c.uri, y);
        }
      }
      NoDuplicatesAppend(DirUrisIn(init), DirUris(c));
    }
  }

  /** A converted listing never holds two directories with the same uri. */
  lemma ConvertedDirsUnique(files: seq<FileRecord>)
    ensures NoDuplicates(DirUris(Directory("/root", true, Grow(files))))
  {
    GrowIsTidy(files);
    DirUrisUnique(Directory("/root", true, Grow(files)));
  }

  // ----- counters -----

  /** Number of file nodes in a tree. */
  function CountFiles(n: Node): nat
    decreases n, 1
  {
    match n
    case File(_, _) => 1
    case Directory(_, _, cs) => CountFilesIn(cs)
  }

  function CountFilesIn(cs: seq<Node>): nat
    decreases cs, 0
  {
    if cs == [] then 0 else CountFilesIn(cs[..|cs| - 1]) + CountFiles(cs[|cs| - 1])
  }

  /** Number of directory nodes, the directory itself included. */
  function CountDirectories(n: Node): nat
    decreases n, 1
  {
    match n
    case File(_, _) => 0
    case Directory(_, _, cs) => 1 + CountDirectoriesIn(cs)
  }

  function CountDirectoriesIn(cs: seq<Node>): nat
    decreases cs, 0
  {
    if cs == [] then 0 else CountDirectoriesIn(cs[..|cs| - 1]) + CountDirectories(cs[|cs| - 1])
  }

  /** Whether a node is a file whose label equals `status` ignoring case. */
  predicate HasStatus(n: Node, status: string)
  {
    n.File? && n.data.comparisonResult != "" && Lower(n.data.comparisonResult) == Lower(status)
  }

  /** Number of file nodes whose label equals `status` ignoring case. */
  function CountFilesByStatus(n: Node, status: string): nat
    decreases n, 1
  {
    match n
    case File(_, _) => if HasStatus(n, status) then 1 else 0
    case Directory(_, _, cs) => CountFilesByStatusIn(cs, status)
  }

  function CountFilesByStatusIn(cs: seq<Node>, status: string): nat
    decreases cs, 0
  {
    if cs == [] then 0 else CountFilesByStatusIn(cs[..|cs| - 1], status) + CountFilesByStatus(cs[|cs| - 1], status)
  }

  /** The counters applied to a tree that may be missing, as the page does. */
  function FilesOf(t: Option<Node>): nat { if t.None? then 0 else CountFiles(t.value) }
  function DirectoriesOf(t: Option<Node>): nat { if t.None? then 0 else CountDirectories(t.value) }
  function StatusCountOf(t: Option<Node>, status: string): nat
  {
    if t.None? then 0 else CountFilesByStatus(t.value, status)
  }

  // ----- what the counters count -----

  lemma {:induction false} CountFilesInAppend(cs: seq<Node>, ds: seq<Node>)
    ensures CountFilesIn(cs + ds) == CountFilesIn(cs) + CountFilesIn(ds)
    decreases |ds|
  {
    if ds != [] {
      CountFilesInAppend(cs, ds[..|ds| - 1]);
      assert (cs + ds)[..|cs + ds| - 1] == cs + ds[..|ds| - 1];
    } else {
      assert cs + ds == cs;
    }
  }

  lemma {:induction false} CountDirectoriesInAppend(cs: seq<Node>, ds: seq<Node>)
    ensures CountDirectoriesIn(cs + ds) == CountDirectoriesIn(cs) + CountDirectoriesIn(ds)
    decreases |ds|
  {
    if ds != [] {
      CountDirectoriesInAppend(cs, ds[..|ds| - 1]);
      assert (cs + ds)[..|cs + ds| - 1] == cs + ds[..|ds| - 1];
    } else {
      assert cs + ds == cs;
    }
  }

  /** Replacing one child changes the file count by the difference of the two. */
  lemma CountFilesInUpdate(cs: seq<Node>, k: nat, x: Node)
    requires k < |cs|
    ensures CountFilesIn(cs[k := x]) + CountFiles(cs[k]) == CountFilesIn(cs) + CountFiles(x)
  {
    assert cs == cs[..k] + [cs[k]] + cs[k + 1..];
    assert cs[k := x] == cs[..k] + [x] + cs[k + 1..];
    CountFilesInAppend(cs[..k] + [cs[k]], cs[k + 1..]);
    CountFilesInAppend(cs[..k] + [x], cs[k + 1..]);
  }

  /** Replacing one child changes the directory count by the difference of the two. */
  lemma CountDirectoriesInUpdate(cs: seq<Node>, k: nat, x: Node)
    requires k < |cs|
    ensures CountDirectoriesIn(cs[k := x]) + CountDirectories(cs[k]) == CountDirectoriesIn(cs) + CountDirectories(x)
  {
    assert cs == cs[..k] + [cs[k]] + cs[k + 1..];
    assert cs[k := x] == cs[..k] + [x] + cs[k + 1..];
    CountDirectoriesInAppend(cs[..k] + [cs[k]], cs[k + 1..]);
    CountDirectoriesInAppend(cs[..k] + [x], cs[k + 1..]);
  }

  /** Inserting a file adds exactly one file node. */
  lemma {:induction false} InsertAddsOneFile(cs: seq<Node>, cur: string, segs: seq<string>, leaf: Node)
    requires leaf.File?
    ensures CountFilesIn(InsertFile(cs, cur, segs, leaf)) == CountFilesIn(cs) + 1
    decreases |segs|
  {
    if |segs| > 1 {
      var dirPath := cur + "/" + segs[0];
      match FindDir(cs, dirPath)
      case Some(k) =>
        InsertAddsOneFile(cs[k].children, dirPath, segs[1..], leaf);
        CountFilesInUpdate(cs, k, Directory(dirPath, cs[k].expanded, InsertFile(cs[k].children, dirPath, segs[1..], leaf)));
      case None =>
        InsertAddsOneFile([], dirPath, segs[1..], leaf);
    }
  }

  /** Inserting a file creates at most one directory per segment before its name, and
      removes none. */
  lemma {:induction false} InsertAddsFewDirectories(cs: seq<Node>, cur: string, segs: seq<string>, leaf: Node)
    requires leaf.File?
    ensures CountDirectoriesIn(cs) <= CountDirectoriesIn(InsertFile(cs, cur, segs, leaf))
    ensures CountDirectoriesIn(InsertFile(cs, cur, segs, leaf)) <= CountDirectoriesIn(cs) + (if |segs| <= 1 then 0 else |segs| - 1)
    decreases |segs|
  {
    if |segs| > 1 {
      var dirPath := cur + "/" + segs[0];
      match FindDir(cs, dirPath)
      case Some(k) =>
        InsertAddsFewDirectories(cs[k].children, dirPath, segs[1..], leaf);
        CountDirectoriesInUpdate(cs, k, Directory(dirPath, cs[k].expanded, InsertFile(cs[k].children, dirPath, segs[1..], leaf)));
      case None =>
        InsertAddsFewDirectories([], dirPath, segs[1..], leaf);
    } else {
      assert CountDirectoriesIn(cs + [leaf]) == CountDirectoriesIn(cs);
    }
  }

  predicate HasPath(f: FileRecord) { Truthy(f.path) }

  /** The tree holds one file node per row with a non-empty path. */
  lemma {:induction false} GrowCountsFiles(files: seq<FileRecord>)
    ensures CountFilesIn(Grow(files)) == CountIf(files, HasPath)
  {
    if files != [] {
      var f := files[|files| - 1];
      GrowCountsFiles(files[..|files| - 1]);
      if Truthy(f.path) {
        InsertAddsOneFile(Grow(files[..|files| - 1]), "/root", Segments(f.path.value), FileNode(f.path.value, f));
      }
    }
  }

  /** The file counter of a converted listing is the number of rows with a path; the
      directory counter counts the root, so the page shows one less. */
  lemma TreeCounters(files: seq<FileRecord>)
    requires files != []
    ensures FilesOf(Some(Directory("/root", true, Grow(files)))) == CountIf(files, HasPath)
    ensures DirectoriesOf(Some(Directory("/root", true, Grow(files)))) >= 1
  {
    GrowCountsFiles(files);
  }

  /** The status counter ignores the case of the status asked for. */
  lemma {:induction false} StatusIgnoresCase(n: Node, status: string)
    ensures CountFilesByStatus(n, status) == CountFilesByStatus(n, Lower(status))
    decreases n, 1
  {
    match n
    case File(_, _) =>
      LowerIdempotent(status);
    case Directory(_, _, cs) =>
      StatusIgnoresCaseIn(cs, status);
  }

  lemma {:induction false} StatusIgnoresCaseIn(cs: seq<Node>, status: string)
    ensures CountFilesByStatusIn(cs, status) == CountFilesByStatusIn(cs, Lower(status))
    decreases cs, 0
  {
    if cs != [] {
      StatusIgnoresCaseIn(cs[..|cs| - 1], status);
      StatusIgnoresCase(cs[|cs| - 1], status);
    }
  }

  /** Only file nodes are counted by status. */
  lemma {:induction false} StatusCountAtMostFiles(n: Node, status: string)
    ensures CountFilesByStatus(n, status) <= CountFiles(n)
    decreases n, 1
  {
    match n
    case File(_, _) =>
    case Directory(_, _, cs) =>
      StatusCountAtMostFilesIn(cs, status);
  }

  lemma {:induction false} StatusCountAtMostFilesIn(cs: seq<Node>, status: string)
    ensures CountFilesByStatusIn(cs, status) <= CountFilesIn(cs)
    decreases cs, 0
  {
    if cs != [] {
      StatusCountAtMostFilesIn(cs[..|cs| - 1], status);
      StatusCountAtMostFiles(cs[|cs| - 1], status);
    }
  }

  /** The three change counts shown on the page. */
  datatype ChangesSummary = ChangesSummary(addedCount: nat, modifiedCount: nat, removedCount: nat)

  /** Added and modified files are counted in tree B, removed files in tree A; there is
      no summary when both trees are missing. */
  function GetChangesSummary(treeA: Option<Node>, treeB: Option<Node>): (r: Option<ChangesSummary>)
  {
    if treeA.None? && treeB.None? then None
    else Some(ChangesSummary(StatusCountOf(treeB, "added"), StatusCountOf(treeB, "modified"), StatusCountOf(treeA, "removed")))
  }

  /** Each count of the summary is bounded by the file count of the tree it is taken
      from, and a missing tree contributes zero. */
  lemma SummaryBounds(treeA: Option<Node>, treeB: Option<Node>)
    requires treeA.Some? || treeB.Some?
    ensures var s := GetChangesSummary(treeA, treeB).value;
      s.addedCount <= FilesOf(treeB) && s.modifiedCount <= FilesOf(treeB) && s.removedCount <= FilesOf(treeA)
    ensures treeA.None? ==> GetChangesSummary(treeA, treeB).value.removedCount == 0
    ensures treeB.None? ==> GetChangesSummary(treeA, treeB).value.addedCount == 0
  {
    if treeB.Some? {
      StatusCountAtMostFiles(treeB.value, "added");
      StatusCountAtMostFiles(treeB.value, "modified");
    }
    if treeA.Some? {
      StatusCountAtMostFiles(treeA.value, "removed");
    }
  }

  // ----- interaction -----

  /** Clicking a directory flips whether it is expanded; clicking a file changes nothing. */
  function ToggleExpanded(n: Node): Node
  {
    if n.Directory? then n.(expanded := !n.expanded) else n
  }

  /** Toggling twice restores the node, and toggling never changes a uri or children. */
  lemma ToggleTwice(n: Node)
    ensures ToggleExpanded(ToggleExpanded(n)) == n
    ensures ToggleExpanded(n).uri == n.uri
    ensures n.Directory? ==> ToggleExpanded(n).children == n.children && ToggleExpanded(n).expanded != n.expanded
    ensures n.File? ==> ToggleExpanded(n) == n
  {
  }

  /** The page a click on a file opens: a file labelled (exactly) "baseline" or
      "modified" is shown against itself, a "removed" file against nothing on the right,
      an "added" file against nothing on the left; directories, files without a path
      and other labels open nothing. `encode` is the URI component encoding. */
  function ClickRoute(n: Node, encode: string -> string): Option<string>
  {
    if n.Directory? || n.data.path == "" then None
    else
      var p := n.data.path;
      var status := n.data.comparisonResult;
      if status == "baseline" || status == "modified" || status == "removed" then
        var pathB := if status == "removed" then "" else p;
        Some("/diff/" + encode(p) + "/" + encode(pathB))
      else if status == "added" then
        Some("/diff//" + encode(p))
      else None
  }

  /** The route of each label, and no route for the rest. Unlike the counters, the click
      compares labels with their case. */
  lemma ClickRouteCases(n: Node, encode: string -> string)
    ensures n.Directory? ==> ClickRoute(n, encode).None?
    ensures n.File? && n.data.path != "" && (n.data.comparisonResult == "baseline" || n.data.comparisonResult == "modified") ==>
      ClickRoute(n, encode) == Some("/diff/" + encode(n.data.path) + "/" + encode(n.data.path))
    ensures n.File? && n.data.path != "" && n.data.comparisonResult == "removed" ==>
      ClickRoute(n, encode) == Some("/diff/" + encode(n.data.path) + "/" + encode(""))
    ensures n.File? && n.data.path != "" && n.data.comparisonResult == "added" ==>
      ClickRoute(n, encode) == Some("/diff//" + encode(n.data.path))
    ensures ClickRoute(n, encode).Some? ==>
      n.File? && n.data.comparisonResult in {"baseline", "modified", "removed", "added"}
  {
  }
}
