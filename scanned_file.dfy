/** One file found while scanning a folder, and the label the folder comparison gives
    it. The path, name, extension and size are fixed when the file is scanned; only the
    cached text and the comparison label change afterwards. Reading the file system is
    modelled by a map from full path to text: a path that is not a key is a read that
    failed. */
module ScannedFiles {
  import opened Common

  newtype u64 = x: int | 0 <= x < 0x1_0000_0000_0000_0000

  datatype ComparisonResult = Baseline | Added | Removed | Modified | Renamed

  /** The `Display` text of a label: the variant's own name. */
  function Display(r: ComparisonResult): (s: string)
  {
    match r
    case Baseline => "Baseline"
    case Added => "Added"
    case Removed => "Removed"
    case Modified => "Modified"
    case Renamed => "Renamed"
  }

  /** Reading a printed label back. */
  function ParseResult(s: string): Option<ComparisonResult>
  {
    if s == "Baseline" then Some(Baseline)
    else if s == "Added" then Some(Added)
    else if s == "Removed" then Some(Removed)
    else if s == "Modified" then Some(Modified)
    else if s == "Renamed" then Some(Renamed)
    else None
  }

  /** The printed text identifies the label: parsing it gives the label back. */
  lemma DisplayRoundTrip(r: ComparisonResult)
    ensures ParseResult(Display(r)) == Some(r)
  {
  }

  /** The outcome of one `read_contents` call on a file whose cached text is `cached`:
      the text on disk when the read succeeds, otherwise the cache as it was. */
  function AfterRead(cached: Option<string>, fullPath: string, disk: map<string, string>): Option<string>
  {
    if fullPath in disk then Some(disk[fullPath]) else cached
  }

  class ScannedFile {
    const fullPath: string
    /** The path relative to the scanned folder: the key matched between the two folders. */
    const smallPath: string
    const name: string
    const extension: string
    const sizeBytes: u64
    var contents: Option<string>
    var comparison: Option<ComparisonResult>

    /** A freshly scanned file has no cached text and no label; a path without an
        extension gets the empty extension. */
    constructor(fullPath: string, smallPath: string, name: string, extension: Option<string>, sizeBytes: u64)
      ensures this.fullPath == fullPath && this.smallPath == smallPath && this.name == name
      ensures this.extension == (if extension.Some? then extension.value else "")
      ensures this.sizeBytes == sizeBytes
      ensures contents == None && comparison == None
    {
      this.fullPath := fullPath;
      this.smallPath := smallPath;
      this.name := name;
      this.extension := if extension.Some? then extension.value else "";
      this.sizeBytes := sizeBytes;
      contents := None;
      comparison := None;
    }

    /** Caches the text on disk when the read succeeds; a failed read keeps the cache. */
    method ReadContents(disk: map<string, string>)
      modifies this
      ensures contents == AfterRead(old(contents), fullPath, disk)
      ensures comparison == old(comparison)
    {
      if fullPath in disk {
        contents := Some(disk[fullPath]);
      }
    }

    method ClearContents()
      modifies this
      ensures contents == None
      ensures comparison == old(comparison)
    {
      contents := None;
    }

    method SetComparisonResult(r: ComparisonResult)
      modifies this
      ensures comparison == Some(r)
      ensures contents == old(contents)
    {
      comparison := Some(r);
    }
  }
}
