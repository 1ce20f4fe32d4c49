/** The HTTP handlers of the comparison server: the two file listings, which turn each
    comparison label into its wire name, and the two contents endpoints, which look a
    file up by position, read it, and answer with its text or with "not found". The
    router, the lock around the store and the JSON encoding are not part of the model. */
module Api {
  import opened Common
  import opened ScannedFiles
  import opened FileStores

  /** The wire name of a label: the lower-case variant name, and "unknown" for a file
      that was never labelled. */
  function ResultName(r: Option<ComparisonResult>): string
  {
    match r
    case Some(Baseline) => "baseline"
    case Some(Added) => "added"
    case Some(Removed) => "removed"
    case Some(Modified) => "modified"
    case Some(Renamed) => "renamed"
    case None => "unknown"
  }

  /** Lower-casing a literal, one character at a time. */
  lemma LowerLiteral(s: string, t: string)
    requires |s| == |t| && forall i :: 0 <= i < |s| ==> LowerChar(s[i]) == t[i]
    ensures Lower(s) == t
  {
  }

  /** The wire name of a label is its printed name in lower case. */
  lemma ResultNameIsLowerDisplay(r: ComparisonResult)
    ensures ResultName(Some(r)) == Lower(Display(r))
  {
    match r
    case Baseline => LowerLiteral("Baseline", "baseline");
    case Added => LowerLiteral("Added", "added");
    case Removed => LowerLiteral("Removed", "removed");
    case Modified => LowerLiteral("Modified", "modified");
    case Renamed => LowerLiteral("Renamed", "renamed");
  }

  /** Reading a wire name back; "unknown" and any other text read as no label. */
  function LabelOfName(s: string): Option<ComparisonResult>
  {
    if s == "baseline" then Some(Baseline)
    else if s == "added" then Some(Added)
    else if s == "removed" then Some(Removed)
    else if s == "modified" then Some(Modified)
    else if s == "renamed" then Some(Renamed)
    else None
  }

  /** Distinct labels, and the missing label, have distinct wire names: reading the
      name back gives the label. */
  lemma ResultNameRoundTrip(r: Option<ComparisonResult>)
    ensures LabelOfName(ResultName(r)) == r
  {
  }

  /** One row of a listing. */
  datatype FileInfo = FileInfo(name: string, path: string, extension: string, sizeBytes: u64, comparisonResult: string)

  function Info(f: ScannedFile): FileInfo
    reads f
  {
    FileInfo(f.name, f.smallPath, f.extension, f.sizeBytes, ResultName(f.comparison))
  }

  /** A listing: one row per stored file, in store order. */
  function ListFiles(fs: seq<ScannedFile>): (r: seq<FileInfo>)
    reads fs
  {
    seq(|fs|, i requires 0 <= i < |fs| reads fs => Info(fs[i]))
  }

  /** The listing of a store row by row: same length and order, each row carrying the
      file's own name, path, extension and size and the wire name of its label. */
  lemma ListingRows(fs: seq<ScannedFile>, i: nat)
    requires i < |fs|
    ensures |ListFiles(fs)| == |fs|
    ensures ListFiles(fs)[i].path == fs[i].smallPath && ListFiles(fs)[i].name == fs[i].name
    ensures ListFiles(fs)[i].extension == fs[i].extension && ListFiles(fs)[i].sizeBytes == fs[i].sizeBytes
    ensures ListFiles(fs)[i].comparisonResult == ResultName(Values(fs)[i].comparison)
  {
  }

  /** After a comparison, folder A lists only "baseline" and "removed"; "removed"
      exactly for the paths missing from B. */
  lemma ListedLabelOfA(a: seq<FileValue>, b: seq<FileValue>, i: nat)
    requires i < |a|
    ensures ResultName(ResultA(a, b)[i].comparison) == "removed" <==> a[i].smallPath !in SmallPaths(b)
    ensures ResultName(ResultA(a, b)[i].comparison) == "removed" || ResultName(ResultA(a, b)[i].comparison) == "baseline"
  {
    LabelOfA(a, b, i);
  }

  /** After a comparison, folder B never lists "removed", "renamed" or "unknown", and
      lists "added" exactly for the paths missing from A. */
  lemma ListedLabelOfB(a: seq<FileValue>, b: seq<FileValue>, disk: map<string, string>, j: nat)
    requires j < |b|
    ensures ResultName(ResultB(a, b, disk)[j].comparison) == "added" <==> b[j].smallPath !in SmallPaths(a)
    ensures ResultName(ResultB(a, b, disk)[j].comparison) in {"added", "modified", "baseline"}
  {
    LabelOfB(a, b, disk, j);
  }

  /** The body of a successful contents response. */
  datatype FileContents = FileContents(name: string, path: string, contents: string)

  datatype Response = Found(body: FileContents) | NotFound

  /** A contents request for position `index` of a file list. A position past the end
      is not found and nothing is read. Otherwise the file is read again (a successful
      read replaces the cache, a failed one keeps it) and the answer carries the cached
      text, or is not found when there is none. */
  method ServeContents(fs: seq<ScannedFile>, index: nat, disk: map<string, string>) returns (r: Response)
    modifies if index < |fs| then {fs[index]} else {}
    ensures index >= |fs| ==> r == NotFound
    ensures index < |fs| ==> fs[index].contents == AfterRead(old(fs[index].contents), fs[index].fullPath, disk)
    ensures index < |fs| ==> fs[index].comparison == old(fs[index].comparison)
    ensures index < |fs| ==>
      r == if fs[index].contents.None? then NotFound
           else Found(FileContents(fs[index].name, fs[index].smallPath, fs[index].contents.value))
  {
    if index >= |fs| {
      return NotFound;
    }
    fs[index].ReadContents(disk);
    if fs[index].contents.Some? {
      var f := fs[index];
      r := Found(FileContents(f.name, f.smallPath, f.contents.value));
    } else {
      r := NotFound;
    }
  }

  /** The answer a contents request gets, from the file's state before the request. */
  function ContentsAnswer(f: FileValue, name: string, disk: map<string, string>): Response
  {
    match AfterRead(f.contents, f.fullPath, disk)
    case Some(text) => Found(FileContents(name, f.smallPath, text))
    case None => NotFound
  }

  /** A request answers with the text on disk when the read succeeds, with a text cached
      earlier when it fails, and is not found only when both are missing. */
  lemma ContentsAnswerCases(f: FileValue, name: string, disk: map<string, string>)
    ensures f.fullPath in disk ==> (ContentsAnswer(f, name, disk).Found? &&
      ContentsAnswer(f, name, disk).body.contents == disk[f.fullPath])
    ensures f.fullPath !in disk ==>
      (ContentsAnswer(f, name, disk) == NotFound <==> f.contents.None?)
    ensures ContentsAnswer(f, name, disk).Found? ==> ContentsAnswer(f, name, disk).body.path == f.smallPath
  {
  }

  method GetFileAContents(store: FileStore, index: nat, disk: map<string, string>) returns (r: Response)
    modifies if index < |store.filesA| then {store.filesA[index]} else {}
    ensures index >= |store.filesA| ==> r == NotFound
    ensures index < |store.filesA| ==>
      store.filesA[index].contents == AfterRead(old(store.filesA[index].contents), store.filesA[index].fullPath, disk)
    ensures index < |store.filesA| ==> store.filesA[index].comparison == old(store.filesA[index].comparison)
    ensures index < |store.filesA| ==>
      r == ContentsAnswer(old(Value(store.filesA[index])), store.filesA[index].name, disk)
  {
    r := ServeContents(store.filesA, index, disk);
  }

  method GetFileBContents(store: FileStore, index: nat, disk: map<string, string>) returns (r: Response)
    modifies if index < |store.filesB| then {store.filesB[index]} else {}
    ensures index >= |store.filesB| ==> r == NotFound
    ensures index < |store.filesB| ==>
      store.filesB[index].contents == AfterRead(old(store.filesB[index].contents), store.filesB[index].fullPath, disk)
    ensures index < |store.filesB| ==> store.filesB[index].comparison == old(store.filesB[index].comparison)
    ensures index < |store.filesB| ==>
      r == ContentsAnswer(old(Value(store.filesB[index])), store.filesB[index].name, disk)
  {
    r := ServeContents(store.filesB, index, disk);
  }
}
