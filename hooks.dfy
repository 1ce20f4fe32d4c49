/** The two diff-viewer hooks. The display hook holds the diff of the two files, its
    processed form with the pane texts, the statistics and the set of highlighted line
    numbers, and moves the highlight as the mouse enters and leaves lines. The stats hook
    computes the diff and folds it into line statistics itself. Both classify the pair
    of files the same way. The line diff itself comes from a library and is a parameter
    here; effect scheduling and the timers around it are not modelled. */
module DiffHooks {
  import opened Common
  import H = Hunks
  import D = DiffUtils

  datatype FileStatus = Added | Removed | Modified | Unchanged

  /** What a file object passed to a hook carries: its text, when it has one. */
  datatype FileRef = FileRef(contents: Option<string>)

  /** The status shown for a pair of texts; a missing text and an empty one are alike. */
  function StatusOf(a: Option<string>, b: Option<string>): FileStatus
  {
    if !Truthy(a) && Truthy(b) then Added
    else if Truthy(a) && !Truthy(b) then Removed
    else if Truthy(a) && Truthy(b) && a.value != b.value then Modified
    else Unchanged
  }

  /** Each status in terms of the two texts, in both directions. */
  lemma StatusCases(a: Option<string>, b: Option<string>)
    ensures StatusOf(a, b) == Added <==> !Truthy(a) && Truthy(b)
    ensures StatusOf(a, b) == Removed <==> Truthy(a) && !Truthy(b)
    ensures StatusOf(a, b) == Modified <==> Truthy(a) && Truthy(b) && a.value != b.value
    ensures StatusOf(a, b) == Unchanged <==>
      (!Truthy(a) && !Truthy(b)) || (Truthy(a) && Truthy(b) && a.value == b.value)
  {
  }

  /** Swapping the files swaps "added" and "removed" and keeps the other two. */
  lemma StatusSwap(a: Option<string>, b: Option<string>)
    ensures StatusOf(b, a) == match StatusOf(a, b)
      case Added => Removed
      case Removed => Added
      case other => other
  {
  }

  /** The text handed to the diff: the file's text, or "" when the file or its text is
      missing or empty. */
  function TextOf(f: Option<FileRef>): string
  {
    if f.Some? && Truthy(f.value.contents) then f.value.contents.value else ""
  }

  // ----- Hover highlighting -----

  datatype Side = LeftSide | RightSide

  /** Change-map element `c` belongs to line number `number` of pane `side`. */
  predicate MatchesLine(c: D.ChangeEntry, side: Side, number: int)
  {
    match side
    case LeftSide => c.left.Some? && c.left.value + 1 == number
    case RightSide => c.right.Some? && c.right.value + 1 == number
  }

  /** `findIndex`: the position of the first element belonging to the line. */
  function FirstMatch(cm: seq<D.ChangeEntry>, side: Side, number: int): Option<nat>
  {
    if cm == [] then None
    else if MatchesLine(cm[0], side, number) then Some(0)
    else match FirstMatch(cm[1..], side, number)
      case Some(k) => Some(k + 1)
      case None => None
  }

  /** The first match is a match with none before it; no match means none at all. */
  lemma {:induction false} FirstMatchMeaning(cm: seq<D.ChangeEntry>, side: Side, number: int)
    ensures FirstMatch(cm, side, number).Some? ==>
      var k := FirstMatch(cm, side, number).value;
      k < |cm| && MatchesLine(cm[k], side, number) &&
      forall j :: 0 <= j < k ==> !MatchesLine(cm[j], side, number)
    ensures FirstMatch(cm, side, number).None? ==>
      forall j :: 0 <= j < |cm| ==> !MatchesLine(cm[j], side, number)
  {
    if cm != [] && !MatchesLine(cm[0], side, number) {
      FirstMatchMeaning(cm[1..], side, number);
      var r := FirstMatch(cm[1..], side, number);
      if r.Some? {
        assert forall j :: 1 <= j < r.value + 1 ==> cm[j] == cm[1..][j - 1];
      } else {
        assert forall j :: 1 <= j < |cm| ==> cm[j] == cm[1..][j - 1];
      }
    }
  }

  /** The highlight set the mouse-enter handler installs for line `number` of pane
      `side`: the line itself, plus the number of its counterpart in the other pane when
      the first change-map element of the line has one. None when that counterpart
      index is past the other pane's lines: the handler then fails before installing
      anything. */
  function Hovered(p: D.Processed, number: int, side: Side): Option<set<int>>
  {
    FirstMatchMeaning(p.changeMap, side, number);
    match FirstMatch(p.changeMap, side, number)
    case None => Some({number})
    case Some(k) =>
      var c := p.changeMap[k];
      if side == LeftSide && c.right.Some? then
        if c.right.value < |p.rightLines| then Some({number, p.rightLines[c.right.value].number}) else None
      else if side == RightSide && c.left.Some? then
        if c.left.value < |p.leftLines| then Some({number, p.leftLines[c.left.value].number}) else None
      else Some({number})
  }

  /** On any processed diff the handler never fails and always highlights the hovered
      line itself, with at most one more line. */
  lemma HoverOnProcessedDiff(input: Option<seq<H.Part>>, number: int, side: Side)
    ensures var h := Hovered(D.ProcessDiffSpec(input), number, side);
      h.Some? && number in h.value && |h.value| <= 2
  {
    var p := D.ProcessDiffSpec(input);
    D.IndicesInRange(input);
    FirstMatchMeaning(p.changeMap, side, number);
    var r := FirstMatch(p.changeMap, side, number);
    if r.Some? {
      assert p.changeMap[r.value] in p.changeMap;
    }
  }

  /** On a laid-out diff, hovering a left line that has a counterpart highlights exactly
      that line and the right line with the same text and kind, at the number of its
      position. */
  lemma HoverLinksSameText(es: seq<H.Entry>, number: int)
    requires Hovered(D.Layout(es), number, LeftSide).Some?
    requires Hovered(D.Layout(es), number, LeftSide).value != {number}
    ensures var p := D.Layout(es);
      1 <= number <= |p.leftLines| &&
      exists m :: 1 <= m <= |p.rightLines| &&
        Hovered(p, number, LeftSide).value == {number, m} &&
        p.rightLines[m - 1].content == p.leftLines[number - 1].content &&
        p.rightLines[m - 1].tag == p.leftLines[number - 1].tag
  {
    var p := D.Layout(es);
    D.LayoutMeaning(es);
    FirstMatchMeaning(p.changeMap, LeftSide, number);
    var k := FirstMatch(p.changeMap, LeftSide, number).value;
    var c := p.changeMap[k];
    assert D.DescribesLine(p, k, es[k]);
    var m := c.right.value + 1;
    assert p.rightLines[c.right.value].number == m;
    assert Hovered(p, number, LeftSide).value == {number, m};
  }

  /** State of the display hook. */
  class DisplayHook {
    var diffResult: seq<H.Part>
    var leftContent: string
    var rightContent: string
    var processed: D.Processed
    var stats: H.DiffStats
    var highlighted: set<int>

    constructor()
      ensures diffResult == [] && leftContent == "" && rightContent == ""
      ensures processed == D.Empty && stats == H.DiffStats(0, 0, 0) && highlighted == {}
    {
      diffResult := [];
      leftContent, rightContent := "", "";
      processed := D.Empty;
      stats := H.DiffStats(0, 0, 0);
      highlighted := {};
    }

    /** The diff effect: nothing when both files are missing, otherwise the library's
      diff of the two texts. */
    method CalculateDiff(fileA: Option<FileRef>, fileB: Option<FileRef>, diffLines: (string, string) -> seq<H.Part>)
      modifies this
      ensures diffResult == if fileA.None? && fileB.None? then old(diffResult) else diffLines(TextOf(fileA), TextOf(fileB))
      ensures leftContent == old(leftContent) && rightContent == old(rightContent)
      ensures processed == old(processed) && stats == old(stats) && highlighted == old(highlighted)
    {
      if fileA.None? && fileB.None? {
        return;
      }
      var contentA := if fileA.Some? && Truthy(fileA.value.contents) then fileA.value.contents.value else "";
      var contentB := if fileB.Some? && Truthy(fileB.value.contents) then fileB.value.contents.value else "";
      diffResult := diffLines(contentA, contentB);
    }

    /** The processing effect: an empty diff leaves everything as it was; otherwise the
        processed diff, the pane texts and the statistics are all recomputed from it. */
    method ProcessResult()
      modifies this
      ensures diffResult == old(diffResult) && highlighted == old(highlighted)
      ensures old(diffResult) == [] ==>
        processed == old(processed) && stats == old(stats) &&
        leftContent == old(leftContent) && rightContent == old(rightContent)
      ensures old(diffResult) != [] ==>
        processed == D.ProcessDiffSpec(Some(diffResult)) &&
        stats == D.HunkStats(D.ValidHunks(diffResult)) &&
        leftContent == Join(D.Contents(processed.leftLines), '\n') &&
        rightContent == Join(D.Contents(processed.rightLines), '\n')
    {
      if |diffResult| == 0 {
        return;
      }
      var l, r, p := D.ProcessDiffForDisplay(Some(diffResult));
      var s := D.CalculateDiffStats(Some(diffResult));
      leftContent, rightContent, processed, stats := l, r, p, s;
    }

    /** `findIndex` over the current change map; -1 when no element belongs to the line. */
    method FindMatch(side: Side, number: int) returns (index: int)
      ensures index == match FirstMatch(processed.changeMap, side, number)
        case Some(k) => k
        case None => -1
    {
      var cm := processed.changeMap;
      var i := 0;
      while i < |cm|
        invariant 0 <= i <= |cm|
        invariant FirstMatch(cm, side, number) == MatchFrom(cm, side, number, i)
      {
        if MatchesLine(cm[i], side, number) {
          MatchFromHit(cm, side, number, i);
          return i;
        }
        MatchFromMiss(cm, side, number, i);
        i := i + 1;
      }
      MatchFromEnd(cm, side, number);
      return -1;
    }

    /** The mouse enters line `number` of pane `side`. */
    method MouseEnter(number: int, side: Side)
      modifies this
      ensures diffResult == old(diffResult) && processed == old(processed) && stats == old(stats)
      ensures leftContent == old(leftContent) && rightContent == old(rightContent)
      ensures highlighted == match Hovered(processed, number, side)
        case Some(h) => h
        case None => old(highlighted)
    {
      var newHighlighted := {number};
      var changeIndex := FindMatch(side, number);
      FirstMatchMeaning(processed.changeMap, side, number);
      if changeIndex != -1 {
        var change := processed.changeMap[changeIndex];
        if side == LeftSide && change.right.Some? {
          if change.right.value >= |processed.rightLines| {
            return;
          }
          newHighlighted := newHighlighted + {processed.rightLines[change.right.value].number};
        } else if side == RightSide && change.left.Some? {
          if change.left.value >= |processed.leftLines| {
            return;
          }
          newHighlighted := newHighlighted + {processed.leftLines[change.left.value].number};
        }
      }
      highlighted := newHighlighted;
    }

    /** The mouse leaves a line: nothing stays highlighted. */
    method MouseLeave()
      modifies this
      ensures highlighted == {}
      ensures diffResult == old(diffResult) && processed == old(processed) && stats == old(stats)
      ensures leftContent == old(leftContent) && rightContent == old(rightContent)
    {
      highlighted := {};
    }
  }

  /** The first match at or after position `i`, counted from the start of `cm`. */
  function MatchFrom(cm: seq<D.ChangeEntry>, side: Side, number: int, i: nat): Option<nat>
    requires i <= |cm|
  {
    match FirstMatch(cm[i..], side, number)
    case Some(k) => Some(k + i)
    case None => None
  }

  lemma MatchFromHit(cm: seq<D.ChangeEntry>, side: Side, number: int, i: nat)
    requires i < |cm| && MatchesLine(cm[i], side, number)
    ensures MatchFrom(cm, side, number, i) == Some(i)
  {
  }

  lemma MatchFromMiss(cm: seq<D.ChangeEntry>, side: Side, number: int, i: nat)
    requires i < |cm| && !MatchesLine(cm[i], side, number)
    ensures MatchFrom(cm, side, number, i) == MatchFrom(cm, side, number, i + 1)
  {
    assert cm[i..][1..] == cm[i + 1..];
  }

  lemma MatchFromEnd(cm: seq<D.ChangeEntry>, side: Side, number: int)
    ensures MatchFrom(cm, side, number, |cm|) == None
  {
  }

  // ----- The stats hook -----

  /** The statistics fold of the stats hook: each hunk adds its line count to the bucket
      of its kind, starting from zeros. */
  method ReduceStats(diff: seq<H.Hunk>) returns (stats: H.DiffStats)
    ensures stats == D.HunkStats(diff)
  {
    stats := H.DiffStats(0, 0, 0);
    var i := 0;
    while i < |diff|
      invariant 0 <= i <= |diff|
      invariant stats == D.HunkStats(diff[..i])
    {
      var part := diff[i];
      var lines := |Split(part.value, '\n')| - 1;
      if lines == 0 {
        lines := 1;
      }
      D.HunkStatsSnoc(diff[..i], part);
      assert diff[..i + 1] == diff[..i] + [part];
      if part.kind == H.Added {
        stats := stats.(addedLines := stats.addedLines + lines);
      } else if part.kind == H.Removed {
        stats := stats.(removedLines := stats.removedLines + lines);
      } else {
        stats := stats.(unchangedLines := stats.unchangedLines + lines);
      }
      i := i + 1;
    }
    assert diff[..i] == diff;
  }

  /** Every element of a well-formed diff passes the shape check. */
  function AsParts(diff: seq<H.Hunk>): (r: seq<H.Part>)
  {
    seq(|diff|, i requires 0 <= i < |diff| => H.Valid(diff[i]))
  }

  /** On a well-formed diff the stats hook's fold agrees with `calculateDiffStats`. */
  lemma {:induction false} ReduceAgreesWithCalculateDiffStats(diff: seq<H.Hunk>)
    ensures D.ValidHunks(AsParts(diff)) == diff
  {
    if diff != [] {
      var init := diff[..|diff| - 1];
      ReduceAgreesWithCalculateDiffStats(init);
      assert AsParts(diff)[..|diff| - 1] == AsParts(init);
    }
  }

  /** State of the stats hook. */
  class StatsHook {
    var diffResult: seq<H.Hunk>
    var stats: H.DiffStats

    constructor()
      ensures diffResult == [] && stats == H.DiffStats(0, 0, 0)
    {
      diffResult := [];
      stats := H.DiffStats(0, 0, 0);
    }

    /** The diff effect: nothing when both files are missing; an empty or invalid diff
        clears the result and keeps the statistics; otherwise the result is the diff and
        the statistics are recomputed from it. */
    method CalculateDiff(fileA: Option<FileRef>, fileB: Option<FileRef>, diffLines: (string, string) -> Option<seq<H.Hunk>>)
      modifies this
      ensures fileA.None? && fileB.None? ==> diffResult == old(diffResult) && stats == old(stats)
      ensures !(fileA.None? && fileB.None?) ==>
        var diff := diffLines(TextOf(fileA), TextOf(fileB));
        if diff.None? || diff.value == [] then diffResult == [] && stats == old(stats)
        else diffResult == diff.value && stats == D.HunkStats(diff.value)
    {
      if fileA.None? && fileB.None? {
        return;
      }
      var contentA := if fileA.Some? && Truthy(fileA.value.contents) then fileA.value.contents.value else "";
      var contentB := if fileB.Some? && Truthy(fileB.value.contents) then fileB.value.contents.value else "";
      var diff := diffLines(contentA, contentB);
      if diff.None? || |diff.value| == 0 {
        diffResult := [];
        return;
      }
      diffResult := diff.value;
      stats := ReduceStats(diff.value);
    }
  }
}
