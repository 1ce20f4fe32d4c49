/** The diff viewer's utilities: `processDiff` (line arrays for the two panes and a
    change map linking every generated line to its position in them), the joined
    pane texts, the per-hunk line statistics and the extension-to-language table. */
module DiffUtils {
  import opened Common
  import opened Hunks

  /** The `type` of a generated line: the kind of its hunk, or the fallback's 'info'. */
  datatype Tag = Change(kind: Kind) | Info

  datatype ViewLine = ViewLine(content: string, number: int, tag: Tag)

  /** One `changeMap` element: the line's type and its indices in the two line arrays
      (`None` stands for null). */
  datatype ChangeEntry = ChangeEntry(tag: Tag, left: Option<nat>, right: Option<nat>)

  datatype Processed = Processed(leftLines: seq<ViewLine>, rightLines: seq<ViewLine>, changeMap: seq<ChangeEntry>)

  const Empty := Processed([], [], [])

  /** What is shown when a non-empty diff produced no line at all. */
  const Fallback := Processed(
    [ViewLine("No content processed in left file", 1, Info)],
    [ViewLine("No content processed in right file", 1, Info)],
    [ChangeEntry(Info, Some(0), Some(0))])

  /** The hunks that pass the shape check, in order. */
  function ValidHunks(parts: seq<Part>): (r: seq<Hunk>)
    ensures |r| <= |parts|
  {
    if parts == [] then []
    else ValidHunks(parts[..|parts| - 1]) + (if parts[|parts| - 1].Valid? then [parts[|parts| - 1].hunk] else [])
  }

  /** The valid hunks are exactly the hunks of the valid elements. */
  lemma {:induction false} ValidHunksMembers(parts: seq<Part>)
    ensures forall h :: h in ValidHunks(parts) <==> Valid(h) in parts
  {
    if parts != [] {
      var init := parts[..|parts| - 1];
      ValidHunksMembers(init);
      assert parts == init + [parts[|parts| - 1]];
    }
  }

  lemma {:induction false} ValidHunksAppend(a: seq<Part>, b: seq<Part>)
    ensures ValidHunks(a + b) == ValidHunks(a) + ValidHunks(b)
  {
    if b != [] {
      ValidHunksAppend(a, b[..|b| - 1]);
      assert (a + b)[..|a + b| - 1] == a + b[..|b| - 1];
    } else {
      assert a + b == a;
    }
  }

  lemma ValidHunksSnoc(parts: seq<Part>, h: int)
    requires 0 <= h < |parts|
    ensures ValidHunks(parts[..h + 1]) ==
      ValidHunks(parts[..h]) + (if parts[h].Valid? then [parts[h].hunk] else [])
  {
    assert parts[..h + 1][..h] == parts[..h];
  }

  /** A malformed element (null, or a value that is not a string) contributes nothing. */
  lemma MalformedSkipped(a: seq<Part>, b: seq<Part>)
    ensures ValidHunks(a + [Malformed] + b) == ValidHunks(a + b)
  {
    ValidHunksAppend(a + [Malformed], b);
    ValidHunksAppend(a, [Malformed]);
    ValidHunksAppend(a, b);
    assert ValidHunks([Malformed]) == [];
  }

  /** One line of a hunk: an added line goes to the right array, a removed one to the
      left array, an unchanged one to both, each numbered after its array's last line,
      and the change map records the indices it got. */
  function Step(p: Processed, e: Entry): Processed
  {
    var l := ViewLine(e.content, |p.leftLines| + 1, Change(e.kind));
    var r := ViewLine(e.content, |p.rightLines| + 1, Change(e.kind));
    match e.kind
    case Added =>
      Processed(p.leftLines, p.rightLines + [r],
                p.changeMap + [ChangeEntry(Change(Added), None, Some(|p.rightLines|))])
    case Removed =>
      Processed(p.leftLines + [l], p.rightLines,
                p.changeMap + [ChangeEntry(Change(Removed), Some(|p.leftLines|), None)])
    case Unchanged =>
      Processed(p.leftLines + [l], p.rightLines + [r],
                p.changeMap + [ChangeEntry(Change(Unchanged), Some(|p.leftLines|), Some(|p.rightLines|))])
  }

  /** The arrays generated for a list of lines, one `Step` per line. */
  function Layout(es: seq<Entry>): Processed
  {
    if es == [] then Empty else Step(Layout(es[..|es| - 1]), es[|es| - 1])
  }

  lemma LayoutSnoc(es: seq<Entry>, e: Entry)
    ensures Layout(es + [e]) == Step(Layout(es), e)
  {
    assert (es + [e])[..|es|] == es;
  }

  /** `lines` carries the entries `es` in order, numbered 1, 2, 3, ... */
  ghost predicate Numbered(lines: seq<ViewLine>, es: seq<Entry>)
  {
    |lines| == |es| &&
    forall i :: 0 <= i < |lines| ==> lines[i] == ViewLine(es[i].content, i + 1, Change(es[i].kind))
  }

  /** Change-map element `i` describes line `e`: its type is the line's kind, the left
      index is null exactly for an added line and the right index exactly for a removed
      one, and every index that is present is in range and points at a line with the
      same text and kind. */
  ghost predicate DescribesLine(p: Processed, i: nat, e: Entry)
    requires i < |p.changeMap|
  {
    var c := p.changeMap[i];
    c.tag == Change(e.kind) &&
    (c.left.Some? <==> e.kind != Added) &&
    (c.right.Some? <==> e.kind != Removed) &&
    (c.left.Some? ==> c.left.value < |p.leftLines| &&
                      p.leftLines[c.left.value].content == e.content &&
                      p.leftLines[c.left.value].tag == Change(e.kind)) &&
    (c.right.Some? ==> c.right.value < |p.rightLines| &&
                       p.rightLines[c.right.value].content == e.content &&
                       p.rightLines[c.right.value].tag == Change(e.kind))
  }

  /** One step keeps the numbering of both arrays. */
  lemma StepNumbered(p: Processed, e: Entry, ls: seq<Entry>, rs: seq<Entry>)
    requires Numbered(p.leftLines, ls) && Numbered(p.rightLines, rs)
    ensures Numbered(Step(p, e).leftLines, ls + (if OnLeft(e) then [e] else []))
    ensures Numbered(Step(p, e).rightLines, rs + (if OnRight(e) then [e] else []))
  {
  }

  /** One step keeps every change-map element describing its line, and adds one
      describing the new line. */
  lemma StepDescribes(p: Processed, e: Entry, es: seq<Entry>)
    requires |p.changeMap| == |es|
    requires forall i :: 0 <= i < |es| ==> DescribesLine(p, i, es[i])
    ensures |Step(p, e).changeMap| == |es| + 1
    ensures forall i :: 0 <= i < |es| + 1 ==> DescribesLine(Step(p, e), i, (es + [e])[i])
  {
    var q := Step(p, e);
    assert p.leftLines <= q.leftLines && p.rightLines <= q.rightLines && p.changeMap <= q.changeMap;
    forall i | 0 <= i < |es| + 1 ensures DescribesLine(q, i, (es + [e])[i]) {
      if i < |es| {
        assert DescribesLine(p, i, es[i]);
        assert q.changeMap[i] == p.changeMap[i];
      }
    }
  }

  /** What the generated arrays are: the left array holds the removed and unchanged
      lines and the right array the added and unchanged ones, in order and numbered
      from 1. */
  lemma {:induction false} LayoutNumbered(es: seq<Entry>)
    ensures Numbered(Layout(es).leftLines, Filter(es, OnLeft))
    ensures Numbered(Layout(es).rightLines, Filter(es, OnRight))
  {
    if es != [] {
      var init := es[..|es| - 1];
      var e := es[|es| - 1];
      LayoutNumbered(init);
      assert es == init + [e];
      FilterSnoc(init, e, OnLeft);
      FilterSnoc(init, e, OnRight);
      StepNumbered(Layout(init), e, Filter(init, OnLeft), Filter(init, OnRight));
    }
  }

  /** There is one change-map element per line, describing it. */
  lemma {:induction false} LayoutDescribes(es: seq<Entry>)
    ensures |Layout(es).changeMap| == |es|
    ensures forall i :: 0 <= i < |es| ==> DescribesLine(Layout(es), i, es[i])
  {
    if es != [] {
      var init := es[..|es| - 1];
      var e := es[|es| - 1];
      LayoutDescribes(init);
      assert es == init + [e];
      StepDescribes(Layout(init), e, init);
    }
  }

  lemma LayoutMeaning(es: seq<Entry>)
    ensures Numbered(Layout(es).leftLines, Filter(es, OnLeft))
    ensures Numbered(Layout(es).rightLines, Filter(es, OnRight))
    ensures |Layout(es).changeMap| == |es|
    ensures forall i :: 0 <= i < |es| ==> DescribesLine(Layout(es), i, es[i])
  {
    LayoutNumbered(es);
    LayoutDescribes(es);
  }

  /** `processDiff`, as a function of its input: empty arrays for a missing, non-array
      or empty input; otherwise the layout of the valid hunks' lines, or the fallback
      when that has no line at all. */
  function ProcessDiffSpec(input: Option<seq<Part>>): Processed
  {
    if input.None? || input.value == [] then Empty
    else
      var p := Layout(Entries(ValidHunks(input.value)));
      if p.leftLines == [] && p.rightLines == [] then Fallback else p
  }

  /** The handling of one line by the kind of its hunk: the line is pushed with the
      next number of its array(s) and its indices are recorded in the change map. */
  method PushLine(kind: Kind, line: string, leftLines0: seq<ViewLine>, rightLines0: seq<ViewLine>,
                  changeMap0: seq<ChangeEntry>, leftLineNum0: int, rightLineNum0: int, ghost done: seq<Entry>)
    returns (leftLines: seq<ViewLine>, rightLines: seq<ViewLine>, changeMap: seq<ChangeEntry>,
             leftLineNum: int, rightLineNum: int)
    requires leftLineNum0 == |leftLines0| + 1 && rightLineNum0 == |rightLines0| + 1
    requires Processed(leftLines0, rightLines0, changeMap0) == Layout(done)
    ensures Processed(leftLines, rightLines, changeMap) == Layout(done + [Entry(kind, line)])
    ensures leftLineNum == |leftLines| + 1 && rightLineNum == |rightLines| + 1
  {
    LayoutSnoc(done, Entry(kind, line));
    leftLines, rightLines, changeMap := leftLines0, rightLines0, changeMap0;
    leftLineNum, rightLineNum := leftLineNum0, rightLineNum0;
    if kind == Added {
      rightLines := rightLines + [ViewLine(line, rightLineNum, Change(Added))];
      rightLineNum := rightLineNum + 1;
      changeMap := changeMap + [ChangeEntry(Change(Added), None, Some(|rightLines| - 1))];
    } else if kind == Removed {
      leftLines := leftLines + [ViewLine(line, leftLineNum, Change(Removed))];
      leftLineNum := leftLineNum + 1;
      changeMap := changeMap + [ChangeEntry(Change(Removed), Some(|leftLines| - 1), None)];
    } else {
      leftLines := leftLines + [ViewLine(line, leftLineNum, Change(Unchanged))];
      leftLineNum := leftLineNum + 1;
      rightLines := rightLines + [ViewLine(line, rightLineNum, Change(Unchanged))];
      rightLineNum := rightLineNum + 1;
      changeMap := changeMap + [ChangeEntry(Change(Unchanged), Some(|leftLines| - 1), Some(|rightLines| - 1))];
    }
  }

  /** The lines of a hunk of kind `kind`, tagged with it. */
  function Tagged(kind: Kind, lines: seq<string>): (r: seq<Entry>)
    ensures |r| == |lines| && forall i :: 0 <= i < |lines| ==> r[i] == Entry(kind, lines[i])
  {
    seq(|lines|, i requires 0 <= i < |lines| => Entry(kind, lines[i]))
  }

  /** The per-line loop of one hunk: each line handled in order. */
  method PushLines(kind: Kind, lines: seq<string>, leftLines0: seq<ViewLine>, rightLines0: seq<ViewLine>,
                   changeMap0: seq<ChangeEntry>, leftLineNum0: int, rightLineNum0: int, ghost done: seq<Entry>)
    returns (leftLines: seq<ViewLine>, rightLines: seq<ViewLine>, changeMap: seq<ChangeEntry>,
             leftLineNum: int, rightLineNum: int)
    requires Processed(leftLines0, rightLines0, changeMap0) == Layout(done)
    requires leftLineNum0 == |leftLines0| + 1 && rightLineNum0 == |rightLines0| + 1
    ensures Processed(leftLines, rightLines, changeMap) == Layout(done + Tagged(kind, lines))
    ensures leftLineNum == |leftLines| + 1 && rightLineNum == |rightLines| + 1
  {
    ghost var es := Tagged(kind, lines);
    leftLines, rightLines, changeMap := leftLines0, rightLines0, changeMap0;
    leftLineNum, rightLineNum := leftLineNum0, rightLineNum0;
    assert done + es[..0] == done;
    var i := 0;
    while i < |lines|
      invariant 0 <= i <= |lines|
      invariant Processed(leftLines, rightLines, changeMap) == Layout(done + es[..i])
      invariant leftLineNum == |leftLines| + 1 && rightLineNum == |rightLines| + 1
    {
      assert done + es[..i + 1] == (done + es[..i]) + [Entry(kind, lines[i])];
      leftLines, rightLines, changeMap, leftLineNum, rightLineNum :=
        PushLine(kind, lines[i], leftLines, rightLines, changeMap, leftLineNum, rightLineNum, done + es[..i]);
      i := i + 1;
    }
    assert es[..i] == es;
  }

  /** One valid hunk: its value is split into lines, one trailing '' popped, and each
      line handled in order. */
  method PushHunk(part: Hunk, leftLines0: seq<ViewLine>, rightLines0: seq<ViewLine>,
                  changeMap0: seq<ChangeEntry>, leftLineNum0: int, rightLineNum0: int, ghost done: seq<Entry>)
    returns (leftLines: seq<ViewLine>, rightLines: seq<ViewLine>, changeMap: seq<ChangeEntry>,
             leftLineNum: int, rightLineNum: int)
    requires Processed(leftLines0, rightLines0, changeMap0) == Layout(done)
    requires leftLineNum0 == |leftLines0| + 1 && rightLineNum0 == |rightLines0| + 1
    ensures Processed(leftLines, rightLines, changeMap) == Layout(done + HunkEntries(part))
    ensures leftLineNum == |leftLines| + 1 && rightLineNum == |rightLines| + 1
  {
    var lines := Split(part.value, '\n');
    if |lines| > 0 && lines[|lines| - 1] == "" {
      lines := lines[..|lines| - 1];
    }
    assert lines == SplitLines(part.value);
    assert Tagged(part.kind, lines) == HunkEntries(part);
    leftLines, rightLines, changeMap, leftLineNum, rightLineNum :=
      PushLines(part.kind, lines, leftLines0, rightLines0, changeMap0, leftLineNum0, rightLineNum0, done);
  }

  /** The loop of `processDiff` over the elements: malformed ones are skipped and the
      lines of each valid hunk pushed. */
  method PushParts(parts: seq<Part>) returns (leftLines: seq<ViewLine>, rightLines: seq<ViewLine>,
                                              changeMap: seq<ChangeEntry>)
    ensures Processed(leftLines, rightLines, changeMap) == Layout(Entries(ValidHunks(parts)))
  {
    var leftLineNum := 1;
    var rightLineNum := 1;
    leftLines, rightLines, changeMap := [], [], [];
    var h := 0;
    while h < |parts|
      invariant 0 <= h <= |parts|
      invariant Processed(leftLines, rightLines, changeMap) == Layout(Entries(ValidHunks(parts[..h])))
      invariant leftLineNum == |leftLines| + 1 && rightLineNum == |rightLines| + 1
    {
      ValidHunksSnoc(parts, h);
      if parts[h].Valid? {
        var part := parts[h].hunk;
        EntriesAppendOne(ValidHunks(parts[..h]), part);
        assert Entries(ValidHunks(parts[..h + 1])) == Entries(ValidHunks(parts[..h])) + HunkEntries(part);
        leftLines, rightLines, changeMap, leftLineNum, rightLineNum :=
          PushHunk(part, leftLines, rightLines, changeMap, leftLineNum, rightLineNum,
                   Entries(ValidHunks(parts[..h])));
      } else {
        assert ValidHunks(parts[..h + 1]) == ValidHunks(parts[..h]);
      }
      assert Processed(leftLines, rightLines, changeMap) == Layout(Entries(ValidHunks(parts[..h + 1])));
      h := h + 1;
    }
    assert parts[..h] == parts;
  }

  /** `processDiff`: empty arrays for a missing or empty input; otherwise the pushed
      lines, or one 'info' line per side when nothing was pushed. */
  method ProcessDiff(input: Option<seq<Part>>) returns (result: Processed)
    ensures result == ProcessDiffSpec(input)
  {
    if input.None? || |input.value| == 0 {
      return Empty;
    }
    var leftLines, rightLines, changeMap := PushParts(input.value);
    if |leftLines| == 0 && |rightLines| == 0 {
      result := Fallback;
    } else {
      result := Processed(leftLines, rightLines, changeMap);
    }
  }

  /** The fallback appears exactly when the input is non-empty and every valid hunk
      has an empty value (including when no element is valid); otherwise the result is
      the layout of the valid hunks' lines, of which there is at least one. */
  lemma FallbackIffNoLines(parts: seq<Part>)
    requires parts != []
    ensures (forall h :: h in ValidHunks(parts) ==> h.value == "") ==> ProcessDiffSpec(Some(parts)) == Fallback
    ensures !(forall h :: h in ValidHunks(parts) ==> h.value == "") ==>
      Entries(ValidHunks(parts)) != [] &&
      ProcessDiffSpec(Some(parts)) == Layout(Entries(ValidHunks(parts)))
  {
    var es := Entries(ValidHunks(parts));
    NoEntriesIffAllEmpty(ValidHunks(parts));
    LayoutMeaning(es);
    if es != [] {
      if es[0].kind == Added {
        assert es[0] in Filter(es, OnRight);
      } else {
        assert es[0] in Filter(es, OnLeft);
      }
    }
  }

  /** Every index in the change map is in range of the array it points into. */
  lemma IndicesInRange(input: Option<seq<Part>>)
    ensures var p := ProcessDiffSpec(input);
      forall c :: c in p.changeMap ==>
        (c.left.Some? ==> c.left.value < |p.leftLines|) && (c.right.Some? ==> c.right.value < |p.rightLines|)
  {
    if input.Some? && input.value != [] {
      var es := Entries(ValidHunks(input.value));
      LayoutMeaning(es);
      var p := Layout(es);
      forall c | c in p.changeMap
        ensures (c.left.Some? ==> c.left.value < |p.leftLines|) && (c.right.Some? ==> c.right.value < |p.rightLines|)
      {
        var i :| 0 <= i < |p.changeMap| && p.changeMap[i] == c;
        assert DescribesLine(p, i, es[i]);
      }
    }
  }

  /** The texts of an array of lines. */
  function Contents(lines: seq<ViewLine>): (r: seq<string>)
    ensures |r| == |lines| && forall i :: 0 <= i < |lines| ==> r[i] == lines[i].content
  {
    seq(|lines|, i requires 0 <= i < |lines| => lines[i].content)
  }

  /** `processDiffForDisplay`: the processed diff together with each pane's text, its
      lines joined with '\n'. */
  method ProcessDiffForDisplay(input: Option<seq<Part>>)
    returns (leftContent: string, rightContent: string, processed: Processed)
    ensures processed == ProcessDiffSpec(input)
    ensures leftContent == Join(Contents(processed.leftLines), '\n')
    ensures rightContent == Join(Contents(processed.rightLines), '\n')
  {
    processed := ProcessDiff(input);
    leftContent := Join(Contents(processed.leftLines), '\n');
    rightContent := Join(Contents(processed.rightLines), '\n');
  }

  /** Lines laid out from entries without '\n' contain no '\n'. */
  lemma LayoutHasNoNewline(es: seq<Entry>)
    requires forall i :: 0 <= i < |es| ==> '\n' !in es[i].content
    ensures forall i :: 0 <= i < |Layout(es).leftLines| ==> '\n' !in Layout(es).leftLines[i].content
    ensures forall i :: 0 <= i < |Layout(es).rightLines| ==> '\n' !in Layout(es).rightLines[i].content
  {
    LayoutNumbered(es);
    FilterMembers(es, OnLeft);
    FilterMembers(es, OnRight);
    var p := Layout(es);
    forall i | 0 <= i < |p.leftLines| ensures '\n' !in p.leftLines[i].content {
      assert Filter(es, OnLeft)[i] in es;
    }
    forall i | 0 <= i < |p.rightLines| ensures '\n' !in p.rightLines[i].content {
      assert Filter(es, OnRight)[i] in es;
    }
  }

  /** Round trip of the pane texts: a pane without lines has the empty text, the
      fallback's panes have their one message, and otherwise splitting a pane's text
      on '\n' gives back its lines' texts. */
  lemma DisplayContentRoundTrip(input: Option<seq<Part>>)
    ensures var p := ProcessDiffSpec(input);
      (p.leftLines == [] ==> Join(Contents(p.leftLines), '\n') == "") &&
      (p.rightLines == [] ==> Join(Contents(p.rightLines), '\n') == "") &&
      (p == Fallback ==> Join(Contents(p.leftLines), '\n') == "No content processed in left file" &&
                         Join(Contents(p.rightLines), '\n') == "No content processed in right file") &&
      (p != Fallback && p.leftLines != [] ==> Split(Join(Contents(p.leftLines), '\n'), '\n') == Contents(p.leftLines)) &&
      (p != Fallback && p.rightLines != [] ==> Split(Join(Contents(p.rightLines), '\n'), '\n') == Contents(p.rightLines))
  {
    var p := ProcessDiffSpec(input);
    if p != Fallback && input.Some? && input.value != [] {
      var es := Entries(ValidHunks(input.value));
      assert p == Layout(es);
      EntriesHaveNoNewline(ValidHunks(input.value));
      LayoutHasNoNewline(es);
      if p.leftLines != [] {
        SplitJoin(Contents(p.leftLines), '\n');
      }
      if p.rightLines != [] {
        SplitJoin(Contents(p.rightLines), '\n');
      }
    }
  }

  // ----- Statistics -----

  /** Adds one hunk to the statistics: `split('\n').length - 1 || 1` lines to the
      bucket of its kind. */
  function AddHunk(stats: DiffStats, h: Hunk): DiffStats
  {
    var n := StatLines(h.value);
    match h.kind
    case Added => stats.(addedLines := stats.addedLines + n)
    case Removed => stats.(removedLines := stats.removedLines + n)
    case Unchanged => stats.(unchangedLines := stats.unchangedLines + n)
  }

  /** The statistics of a hunk list, folded from zero counts. */
  function HunkStats(hs: seq<Hunk>): DiffStats
  {
    if hs == [] then DiffStats(0, 0, 0) else AddHunk(HunkStats(hs[..|hs| - 1]), hs[|hs| - 1])
  }

  lemma HunkStatsSnoc(hs: seq<Hunk>, h: Hunk)
    ensures HunkStats(hs + [h]) == AddHunk(HunkStats(hs), h)
  {
    assert (hs + [h])[..|hs|] == hs;
  }

  /** `calculateDiffStats`: zero counts for a missing or empty input, otherwise the
      statistics of the valid hunks; malformed elements are skipped. */
  method CalculateDiffStats(input: Option<seq<Part>>) returns (stats: DiffStats)
    ensures input.None? ==> stats == DiffStats(0, 0, 0)
    ensures input.Some? ==> stats == HunkStats(ValidHunks(input.value))
  {
    stats := DiffStats(0, 0, 0);
    if input.None? || |input.value| == 0 {
      return;
    }
    var parts := input.value;
    var h := 0;
    while h < |parts|
      invariant 0 <= h <= |parts|
      invariant stats == HunkStats(ValidHunks(parts[..h]))
    {
      ValidHunksSnoc(parts, h);
      if parts[h].Valid? {
        var part := parts[h].hunk;
        var lines := |Split(part.value, '\n')| - 1;
        if lines == 0 {
          lines := 1;
        }
        assert lines == StatLines(part.value);
        HunkStatsSnoc(ValidHunks(parts[..h]), part);
        if part.kind == Added {
          stats := stats.(addedLines := stats.addedLines + lines);
        } else if part.kind == Removed {
          stats := stats.(removedLines := stats.removedLines + lines);
        } else {
          stats := stats.(unchangedLines := stats.unchangedLines + lines);
        }
      } else {
        assert ValidHunks(parts[..h + 1]) == ValidHunks(parts[..h]);
      }
      assert stats == HunkStats(ValidHunks(parts[..h + 1]));
      h := h + 1;
    }
    assert parts[..h] == parts;
  }

  /** The bucket of kind `k`. */
  function Bucket(stats: DiffStats, k: Kind): nat
  {
    match k
    case Added => stats.addedLines
    case Removed => stats.removedLines
    case Unchanged => stats.unchangedLines
  }

  lemma BucketAddHunk(stats: DiffStats, h: Hunk, k: Kind)
    ensures Bucket(AddHunk(stats, h), k) == Bucket(stats, k) + (if h.kind == k then StatLines(h.value) else 0)
  {
  }

  /** Each hunk counts for at least one line. */
  lemma {:induction false} StatsAtLeastOnePerHunk(hs: seq<Hunk>)
    ensures HunkStats(hs).addedLines + HunkStats(hs).removedLines + HunkStats(hs).unchangedLines >= |hs|
  {
    if hs != [] {
      StatsAtLeastOnePerHunk(hs[..|hs| - 1]);
    }
  }

  /** A bucket is zero exactly when no hunk has its kind. */
  lemma {:induction false} BucketZeroIffKindAbsent(hs: seq<Hunk>, k: Kind)
    ensures Bucket(HunkStats(hs), k) == 0 <==> forall h :: h in hs ==> h.kind != k
  {
    if hs != [] {
      var init := hs[..|hs| - 1];
      var last := hs[|hs| - 1];
      BucketZeroIffKindAbsent(init, k);
      BucketAddHunk(HunkStats(init), last, k);
      assert hs == init + [last];
      assert forall h :: h in hs <==> h in init || h == last;
    }
  }

  /** When every hunk value ends with '\n', the statistics equal the numbers of lines
      of each kind actually generated; otherwise they may differ (see
      `StatLinesVersusEmitted`). */
  lemma {:induction false} StatsMatchLinesWhenTerminated(hs: seq<Hunk>)
    requires forall h :: h in hs ==> EndsWithNewline(h.value)
    ensures HunkStats(hs) == DiffStats(CountEntries(Entries(hs), Added),
                                       CountEntries(Entries(hs), Removed),
                                       CountEntries(Entries(hs), Unchanged))
  {
    if hs != [] {
      var init := hs[..|hs| - 1];
      var last := hs[|hs| - 1];
      assert forall h :: h in init ==> h in hs;
      StatsMatchLinesWhenTerminated(init);
      StatLinesVersusEmitted(last.value);
      CountEntriesAppend(Entries(init), HunkEntries(last), Added);
      CountEntriesAppend(Entries(init), HunkEntries(last), Removed);
      CountEntriesAppend(Entries(init), HunkEntries(last), Unchanged);
      CountHunkEntries(last, Added);
      CountHunkEntries(last, Removed);
      CountHunkEntries(last, Unchanged);
    }
  }

  // ----- Language names -----

  /** The extension table of `getLanguageFromExtension`. */
  const LanguageOf: map<string, string> := map[
    "js" := "javascript", "jsx" := "jsx", "ts" := "typescript", "tsx" := "tsx", "json" := "json",
    "html" := "html", "css" := "css", "scss" := "scss", "less" := "less", "svg" := "xml",
    "py" := "python", "rb" := "ruby", "java" := "java", "cs" := "csharp", "go" := "go",
    "rs" := "rust", "php" := "php",
    "md" := "markdown", "mdx" := "markdown", "yml" := "yaml", "yaml" := "yaml", "toml" := "toml",
    "xml" := "xml",
    "sh" := "bash", "bash" := "bash", "zsh" := "bash",
    "c" := "c", "cpp" := "cpp", "dart" := "dart", "kotlin" := "kotlin", "swift" := "swift",
    "sql" := "sql",
    "dockerfile" := "dockerfile", "makefile" := "makefile", "gitignore" := "plaintext"]

  /** `getLanguageFromExtension`: the table entry for the lower-cased extension;
      'plaintext' for a missing, empty or unknown extension. */
  function LanguageFromExtension(ext: Option<string>): (r: string)
    ensures !Truthy(ext) ==> r == "plaintext"
    ensures Truthy(ext) && Lower(ext.value) !in LanguageOf ==> r == "plaintext"
    ensures Truthy(ext) && Lower(ext.value) in LanguageOf ==> r == LanguageOf[Lower(ext.value)]
    ensures r != ""
  {
    if !Truthy(ext) then "plaintext"
    else
      var key := Lower(ext.value);
      if key in LanguageOf then LanguageOf[key] else "plaintext"
  }

  /** The lookup ignores ASCII case: extensions equal up to case get the same language. */
  lemma LanguageIgnoresCase(a: string, b: string)
    requires Lower(a) == Lower(b)
    ensures LanguageFromExtension(Some(a)) == LanguageFromExtension(Some(b))
  {
    assert |a| == |Lower(a)| && |b| == |Lower(b)|;
  }
}
