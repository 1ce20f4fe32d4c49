/** The two scanned folders and the comparison that labels every file in them.
    A file of folder B is matched with the file of folder A that has the same relative
    path; matched texts are loaded (from the cache, or from disk when not cached),
    compared, and then dropped from the cache. Scanning the folders is not part of the
    model: the store is given its two file lists. */
module FileStores {
  import opened Common
  import opened ScannedFiles

  /** The state of one file as the comparison sees it: its two paths and the two
      fields that change. */
  datatype FileValue = FileValue(
    fullPath: string,
    smallPath: string,
    contents: Option<string>,
    comparison: Option<ComparisonResult>)

  function Value(f: ScannedFile): FileValue
    reads f
  {
    FileValue(f.fullPath, f.smallPath, f.contents, f.comparison)
  }

  function Values(fs: seq<ScannedFile>): seq<FileValue>
    reads fs
  {
    seq(|fs|, i requires 0 <= i < |fs| reads fs => Value(fs[i]))
  }

  function SmallPaths(vs: seq<FileValue>): seq<string>
  {
    seq(|vs|, i requires 0 <= i < |vs| => vs[i].smallPath)
  }

  /** The relative paths of a file list (fixed at scan time, so read without a frame). */
  function PathsOf(fs: seq<ScannedFile>): seq<string>
  {
    seq(|fs|, i requires 0 <= i < |fs| => fs[i].smallPath)
  }

  /** No file object occurs twice in a list. */
  predicate Distinct(fs: seq<ScannedFile>)
  {
    forall i, k :: 0 <= i < k < |fs| ==> fs[i] != fs[k]
  }

  /** The lookup table from relative path to position in A: entries are inserted in
      list order, so a later file with the same path replaces an earlier one. */
  function PathIndex(paths: seq<string>): map<string, nat>
  {
    if paths == [] then map[]
    else PathIndex(paths[..|paths| - 1])[paths[|paths| - 1] := |paths| - 1]
  }

  /** The table holds exactly the paths of the list, each mapped to the LAST position
      carrying it. */
  lemma {:induction false} PathIndexKeepsLast(paths: seq<string>)
    ensures forall p :: p in PathIndex(paths) <==> p in paths
    ensures forall p :: p in PathIndex(paths) ==>
      PathIndex(paths)[p] < |paths| && paths[PathIndex(paths)[p]] == p &&
      forall k :: PathIndex(paths)[p] < k < |paths| ==> paths[k] != p
  {
    if paths != [] {
      var init := paths[..|paths| - 1];
      PathIndexKeepsLast(init);
      assert paths == init + [paths[|paths| - 1]];
    }
  }

  /** The position of the A file that a B file with path `p` is compared with: the
      last A file with that path, or none when no A file has it. */
  function Counterpart(a: seq<FileValue>, p: string): (r: Option<nat>)
    ensures r.Some? ==> (r.value < |a| && a[r.value].smallPath == p &&
      forall k :: r.value < k < |a| ==> a[k].smallPath != p)
    ensures r.None? <==> p !in SmallPaths(a)
  {
    PathIndexKeepsLast(SmallPaths(a));
    assert forall k :: 0 <= k < |a| ==> SmallPaths(a)[k] == a[k].smallPath;
    var m := PathIndex(SmallPaths(a));
    if p in m then Some(m[p]) else None
  }

  /** The text a matched file is compared with: the cached text, or when nothing is
      cached the result of reading it (which stays missing when the read fails). */
  function Loaded(f: FileValue, disk: map<string, string>): Option<string>
  {
    if f.contents.None? then AfterRead(f.contents, f.fullPath, disk) else f.contents
  }

  function Relabel(vs: seq<FileValue>, r: ComparisonResult): seq<FileValue>
  {
    seq(|vs|, i requires 0 <= i < |vs| => vs[i].(comparison := Some(r)))
  }

  /** Whether A's file `i` has been compared with one of the first `j` files of B: its
      path occurs among them and the table sends that path to `i`. */
  predicate Compared(a: seq<FileValue>, b: seq<FileValue>, j: nat, i: nat)
    requires i < |a| && j <= |b|
  {
    a[i].smallPath in SmallPaths(b[..j]) && Counterpart(a, a[i].smallPath) == Some(i)
  }

  /** Folder A once every file is labelled Baseline and the first `j` files of B have
      been compared: each compared file has dropped its text. */
  function AfterMatching(a: seq<FileValue>, b: seq<FileValue>, j: nat): seq<FileValue>
    requires j <= |b|
  {
    seq(|a|, i requires 0 <= i < |a| =>
      a[i].(contents := if Compared(a, b, j, i) then None else a[i].contents, comparison := Some(Baseline)))
  }

  /** B's file `j` after the comparison. A file without a counterpart is Added. A matched
      file is Modified when the two loaded texts differ and Baseline otherwise, and
      drops its text; the A side has no cache left when an earlier B file with the same
      path was already compared with it. */
  function CompareB(a: seq<FileValue>, b: seq<FileValue>, disk: map<string, string>, j: nat): FileValue
    requires j < |b|
  {
    var p := b[j].smallPath;
    match Counterpart(a, p)
    case Some(ia) =>
      var fa := a[ia];
      var aNow := fa.(contents := if p in SmallPaths(b[..j]) then None else fa.contents);
      var differ := Loaded(aNow, disk) != Loaded(b[j], disk);
      b[j].(contents := None, comparison := Some(if differ then Modified else Baseline))
    case None =>
      b[j].(comparison := Some(Added))
  }

  /** Folder B after the comparison. */
  function ResultB(a: seq<FileValue>, b: seq<FileValue>, disk: map<string, string>): seq<FileValue>
  {
    seq(|b|, j requires 0 <= j < |b| => CompareB(a, b, disk, j))
  }

  /** The last pass: every file whose path is not among `paths` becomes Removed. */
  function MarkMissing(vs: seq<FileValue>, paths: seq<string>): seq<FileValue>
  {
    seq(|vs|, i requires 0 <= i < |vs| =>
      if vs[i].smallPath in paths then vs[i] else vs[i].(comparison := Some(Removed)))
  }

  /** Folder A after the comparison. */
  function ResultA(a: seq<FileValue>, b: seq<FileValue>): seq<FileValue>
  {
    MarkMissing(AfterMatching(a, b, |b|), SmallPaths(b))
  }

  /** Comparison keeps both folders' length, order and paths. */
  lemma ResultsKeepFiles(a: seq<FileValue>, b: seq<FileValue>, disk: map<string, string>)
    ensures |ResultA(a, b)| == |a| && |ResultB(a, b, disk)| == |b|
    ensures forall i :: 0 <= i < |a| ==>
      ResultA(a, b)[i].fullPath == a[i].fullPath && ResultA(a, b)[i].smallPath == a[i].smallPath
    ensures forall j :: 0 <= j < |b| ==>
      ResultB(a, b, disk)[j].fullPath == b[j].fullPath && ResultB(a, b, disk)[j].smallPath == b[j].smallPath
  {
  }

  /** An A file ends Removed when its path is missing from B and Baseline otherwise:
      no other label is ever given to A. */
  lemma LabelOfA(a: seq<FileValue>, b: seq<FileValue>, i: nat)
    requires i < |a|
    ensures ResultA(a, b)[i].comparison ==
      Some(if a[i].smallPath in SmallPaths(b) then Baseline else Removed)
  {
  }

  /** A B file ends Added exactly when no A file has its path; otherwise it is Modified
      or Baseline according to whether the loaded texts differ. */
  lemma LabelOfB(a: seq<FileValue>, b: seq<FileValue>, disk: map<string, string>, j: nat)
    requires j < |b|
    ensures ResultB(a, b, disk)[j].comparison == Some(Added) <==> b[j].smallPath !in SmallPaths(a)
    ensures b[j].smallPath in SmallPaths(a) ==>
      ResultB(a, b, disk)[j].comparison == Some(Modified) || ResultB(a, b, disk)[j].comparison == Some(Baseline)
  {
  }

  /** The first comparison of a matched pair compares the texts as cached or as read: two
      reads that both fail leave two missing texts, which count as equal. */
  lemma FirstMatchComparesTexts(a: seq<FileValue>, b: seq<FileValue>, disk: map<string, string>, j: nat, ia: nat)
    requires j < |b| && Counterpart(a, b[j].smallPath) == Some(ia)
    requires b[j].smallPath !in SmallPaths(b[..j])
    ensures ResultB(a, b, disk)[j].comparison == Some(Modified) <==> Loaded(a[ia], disk) != Loaded(b[j], disk)
    ensures a[ia].contents == None && a[ia].fullPath !in disk && b[j].contents == None && b[j].fullPath !in disk ==>
      ResultB(a, b, disk)[j].comparison == Some(Baseline)
  {
  }

  /** Both files of a matched pair end with no cached text; unmatched B files keep theirs. */
  lemma MatchedPairsDropText(a: seq<FileValue>, b: seq<FileValue>, disk: map<string, string>, j: nat, ia: nat)
    requires j < |b| && Counterpart(a, b[j].smallPath) == Some(ia)
    ensures ResultB(a, b, disk)[j].contents == None && ResultA(a, b)[ia].contents == None
  {
    assert SmallPaths(b)[j] == b[j].smallPath;
    assert SmallPaths(b[..|b|]) == SmallPaths(b);
    assert Compared(a, b, |b|, ia);
  }

  /** A B file without a counterpart keeps its cached text. */
  lemma UnmatchedBKeepsText(a: seq<FileValue>, b: seq<FileValue>, disk: map<string, string>, j: nat)
    requires j < |b| && b[j].smallPath !in SmallPaths(a)
    ensures ResultB(a, b, disk)[j].contents == b[j].contents
  {
  }

  /** An A file keeps its cached text unless it is the counterpart of some path of B. */
  lemma UncomparedAKeepsText(a: seq<FileValue>, b: seq<FileValue>, i: nat)
    requires i < |a|
    requires a[i].smallPath !in SmallPaths(b) || Counterpart(a, a[i].smallPath) != Some(i)
    ensures ResultA(a, b)[i].contents == a[i].contents
  {
    assert SmallPaths(b[..|b|]) == SmallPaths(b);
  }

  class FileStore {
    var filesA: seq<ScannedFile>
    var filesB: seq<ScannedFile>

    /** Every file object belongs to one place in one list, as the two owned vectors
        of the store guarantee. */
    predicate Valid()
      reads this
    {
      Distinct(filesA) && Distinct(filesB) &&
      forall i, k :: 0 <= i < |filesA| && 0 <= k < |filesB| ==> filesA[i] != filesB[k]
    }

    /** Labels every file of both folders; see `ResultA` and `ResultB`. */
    method CompareFiles(disk: map<string, string>)
      requires Valid()
      modifies filesA, filesB
      ensures Values(filesA) == ResultA(old(Values(filesA)), old(Values(filesB)))
      ensures Values(filesB) == ResultB(old(Values(filesA)), old(Values(filesB)), disk)
    {
      ghost var a0 := Values(filesA);
      ghost var b0 := Values(filesB);
      PathsOfValues(filesB);
      var index := IndexByPath(filesA);
      assert PathsOf(filesA) == SmallPaths(a0);
      MarkAll(filesA, Baseline);
      NothingComparedYet(a0, b0);
      var j := 0;
      while j < |filesB|
        invariant 0 <= j <= |filesB|
        invariant index == PathIndex(SmallPaths(a0))
        invariant Values(filesA) == AfterMatching(a0, b0, j)
        invariant Values(filesB) == ResultB(a0, b0, disk)[..j] + b0[j..]
      {
        MatchOne(index, a0, b0, disk, j);
        j := j + 1;
      }
      assert ResultB(a0, b0, disk)[..j] + b0[j..] == ResultB(a0, b0, disk);
      var bPaths := PathsOf(filesB);
      MarkRemoved(filesA, bPaths, filesB);
    }

    /** Compares B's file `j` with its counterpart in A, if any. */
    method MatchOne(index: map<string, nat>, ghost a0: seq<FileValue>, ghost b0: seq<FileValue>,
                    disk: map<string, string>, j: nat)
      requires Valid()
      requires |a0| == |filesA| && |b0| == |filesB| && j < |filesB|
      requires index == PathIndex(SmallPaths(a0))
      requires Values(filesA) == AfterMatching(a0, b0, j)
      requires Values(filesB) == ResultB(a0, b0, disk)[..j] + b0[j..]
      modifies filesA, filesB
      ensures Values(filesA) == AfterMatching(a0, b0, j + 1)
      ensures Values(filesB) == ResultB(a0, b0, disk)[..j + 1] + b0[j + 1..]
    {
      var fb := filesB[j];
      var p := fb.smallPath;
      assert Values(filesB)[j] == b0[j];
      assert p == b0[j].smallPath;
      PathIndexKeepsLast(SmallPaths(a0));
      ResultBStep(a0, b0, disk, j);
      if p in index {
        var ia := index[p];
        var fa := filesA[ia];
        AfterMatchingStep(a0, b0, j, ia);
        assert fa != fb;
        ComparePair(fa, fb, disk);
        assert Values(filesA) == old(Values(filesA))[ia := Value(fa)];
      } else {
        AfterMatchingUnmatched(a0, b0, j);
        fb.SetComparisonResult(Added);
        assert Values(filesA) == old(Values(filesA));
      }
      assert Values(filesB) == old(Values(filesB))[j := Value(fb)];
    }
  }

  /** Loads both texts when not cached, labels `fb` Modified or Baseline by whether
      they differ, and drops both texts. */
  method ComparePair(fa: ScannedFile, fb: ScannedFile, disk: map<string, string>)
    requires fa != fb
    modifies fa, fb
    ensures fa.contents == None && fa.comparison == old(fa.comparison)
    ensures fb.contents == None
    ensures fb.comparison == Some(if Loaded(old(Value(fa)), disk) != Loaded(old(Value(fb)), disk) then Modified else Baseline)
  {
    if fa.contents.None? {
      fa.ReadContents(disk);
    }
    if fb.contents.None? {
      fb.ReadContents(disk);
    }
    if fa.contents != fb.contents {
      fb.SetComparisonResult(Modified);
    } else {
      fb.SetComparisonResult(Baseline);
    }
    fa.ClearContents();
    fb.ClearContents();
  }

  /** Comparing B's file `j` only changes position `j` of B. */
  lemma ResultBStep(a: seq<FileValue>, b: seq<FileValue>, disk: map<string, string>, j: nat)
    requires j < |b|
    ensures ResultB(a, b, disk)[..j + 1] + b[j + 1..] ==
      (ResultB(a, b, disk)[..j] + b[j..])[j := CompareB(a, b, disk, j)]
  {
  }

  /** Comparing B's file `j` with A's file `ia` drops the text of that file only. */
  lemma AfterMatchingStep(a: seq<FileValue>, b: seq<FileValue>, j: nat, ia: nat)
    requires j < |b|
    requires Counterpart(a, b[j].smallPath) == Some(ia)
    ensures AfterMatching(a, b, j + 1) == AfterMatching(a, b, j)[ia := AfterMatching(a, b, j)[ia].(contents := None)]
    ensures AfterMatching(a, b, j)[ia].contents ==
      if b[j].smallPath in SmallPaths(b[..j]) then None else a[ia].contents
  {
    assert SmallPaths(b[..j + 1]) == SmallPaths(b[..j]) + [b[j].smallPath];
  }

  /** Before any B file is looked at, folder A is only relabelled. */
  lemma NothingComparedYet(a: seq<FileValue>, b: seq<FileValue>)
    ensures AfterMatching(a, b, 0) == Relabel(a, Baseline)
  {
    assert SmallPaths(b[..0]) == [];
  }

  /** A B file without a counterpart leaves folder A as it is. */
  lemma AfterMatchingUnmatched(a: seq<FileValue>, b: seq<FileValue>, j: nat)
    requires j < |b| && Counterpart(a, b[j].smallPath) == None
    ensures AfterMatching(a, b, j + 1) == AfterMatching(a, b, j)
  {
    assert SmallPaths(b[..j + 1]) == SmallPaths(b[..j]) + [b[j].smallPath];
  }

  /** Builds the path table by inserting every file's path with its position. */
  method IndexByPath(fs: seq<ScannedFile>) returns (m: map<string, nat>)
    ensures m == PathIndex(PathsOf(fs))
  {
    m := map[];
    var i := 0;
    while i < |fs|
      invariant 0 <= i <= |fs|
      invariant m == PathIndex(PathsOf(fs)[..i])
    {
      assert PathsOf(fs)[..i + 1][..i] == PathsOf(fs)[..i];
      m := m[fs[i].smallPath := i];
      i := i + 1;
    }
    assert PathsOf(fs)[..i] == PathsOf(fs);
  }

  lemma PathsOfValues(fs: seq<ScannedFile>)
    ensures SmallPaths(Values(fs)) == PathsOf(fs)
  {
  }

  /** Gives every file of the list the label `r`. */
  method MarkAll(fs: seq<ScannedFile>, r: ComparisonResult)
    requires Distinct(fs)
    modifies fs
    ensures Values(fs) == Relabel(old(Values(fs)), r)
  {
    var i := 0;
    while i < |fs|
      invariant 0 <= i <= |fs|
      invariant forall k :: 0 <= k < |fs| ==>
        fs[k].contents == old(fs[k].contents) &&
        fs[k].comparison == if k < i then Some(r) else old(fs[k].comparison)
    {
      fs[i].SetComparisonResult(r);
      i := i + 1;
    }
  }

  /** Labels Removed every file whose path is not in `paths`. */
  method MarkRemoved(fs: seq<ScannedFile>, paths: seq<string>, ghost others: seq<ScannedFile>)
    requires Distinct(fs)
    requires forall i, k :: 0 <= i < |fs| && 0 <= k < |others| ==> fs[i] != others[k]
    modifies fs
    ensures Values(fs) == MarkMissing(old(Values(fs)), paths)
    ensures Values(others) == old(Values(others))
  {
    var i := 0;
    while i < |fs|
      invariant 0 <= i <= |fs|
      invariant forall k :: 0 <= k < |fs| ==>
        fs[k].contents == old(fs[k].contents) &&
        fs[k].comparison == if k < i && fs[k].smallPath !in paths then Some(Removed) else old(fs[k].comparison)
    {
      if fs[i].smallPath !in paths {
        fs[i].SetComparisonResult(Removed);
      }
      i := i + 1;
    }
  }
}
