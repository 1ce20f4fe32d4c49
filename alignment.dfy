/** The diff page: turning the diff library's hunk list into numbered left and right
    line lists, a sorted connector list and line statistics (`processChanges`), plus
    the page's small helpers for display names, the file extension, locating a file in
    a listing and the "no differences" rule. */
module Alignment {
  import opened Common
  import opened Hunks

  /** One rendered line of a pane: its kind, its text and its 1-based number. */
  datatype Line = Line(kind: Kind, content: string, number: int)

  /** A link between a left line number and a right line number. */
  datatype Connector = Connector(kind: Kind, leftLine: int, rightLine: int)

  /** What `processChanges` returns. */
  datatype DiffLines = DiffLines(left: seq<Line>, right: seq<Line>, connectors: seq<Connector>)

  /** `lines` carries the entries `es` in order, numbered 1, 2, 3, ... */
  ghost predicate NumberedFrom(lines: seq<Line>, es: seq<Entry>)
  {
    |lines| == |es| &&
    forall i :: 0 <= i < |lines| ==> lines[i] == Line(es[i].kind, es[i].content, i + 1)
  }

  /** Number of lines of kind `k`. */
  function CountKind(lines: seq<Line>, k: Kind): nat
  {
    if lines == [] then 0
    else CountKind(lines[..|lines| - 1], k) + (if lines[|lines| - 1].kind == k then 1 else 0)
  }

  /** Index of the last removed line, or -1 when there is none. */
  function LastRemoved(lines: seq<Line>): (r: int)
    ensures -1 <= r < |lines|
    ensures r >= 0 ==> lines[r].kind == Removed
    ensures forall j :: r < j < |lines| ==> lines[j].kind != Removed
  {
    if lines == [] then -1
    else if lines[|lines| - 1].kind == Removed then |lines| - 1
    else LastRemoved(lines[..|lines| - 1])
  }

  /** The connectors the right-pane loop emits: one per added right line, tied to the
      last removed left line, and none when the left pane has no removed line. */
  function AddedConnectors(left: seq<Line>, right: seq<Line>): seq<Connector>
  {
    if right == [] then []
    else
      var last := right[|right| - 1];
      var k := LastRemoved(left);
      AddedConnectors(left, right[..|right| - 1]) +
        (if last.kind == Added && k >= 0 then [Connector(Added, left[k].number, last.number)] else [])
  }

  /** The connectors the index-pairing loop emits for indices below `n`. */
  function UnchangedConnectors(left: seq<Line>, right: seq<Line>, n: nat): seq<Connector>
    requires n <= |left| && n <= |right|
  {
    if n == 0 then []
    else
      UnchangedConnectors(left, right, n - 1) +
        (if left[n - 1].kind == Unchanged && right[n - 1].kind == Unchanged
         then [Connector(Unchanged, left[n - 1].number, right[n - 1].number)] else [])
  }

  function Min(a: int, b: int): int { if a < b then a else b }

  /** The comparator `a.leftLine - b.leftLine || a.rightLine - b.rightLine`. */
  predicate Before(a: Connector, b: Connector)
  {
    a.leftLine < b.leftLine || (a.leftLine == b.leftLine && a.rightLine <= b.rightLine)
  }

  predicate StrictlyBefore(a: Connector, b: Connector)
  {
    a.leftLine < b.leftLine || (a.leftLine == b.leftLine && a.rightLine < b.rightLine)
  }

  predicate SortedByLines(cs: seq<Connector>)
  {
    forall i, j :: 0 <= i < j < |cs| ==> Before(cs[i], cs[j])
  }

  /** Inserts `c` after every element that does not come strictly after it. */
  function InsertByLines(c: Connector, cs: seq<Connector>): (r: seq<Connector>)
    ensures multiset(r) == multiset(cs) + multiset{c}
  {
    if cs == [] then [c]
    else if StrictlyBefore(c, cs[0]) then [c] + cs
    else
      assert cs == [cs[0]] + cs[1..];
      [cs[0]] + InsertByLines(c, cs[1..])
  }

  /** A sorted list stays sorted with an element in front that comes before all of it. */
  lemma SortedCons(x: Connector, rest: seq<Connector>)
    requires SortedByLines(rest)
    requires forall y :: y in rest ==> Before(x, y)
    ensures SortedByLines([x] + rest)
  {
    var r := [x] + rest;
    forall i, j | 0 <= i < j < |r| ensures Before(r[i], r[j]) {
      assert r[j] == rest[j - 1];
      if i > 0 {
        assert r[i] == rest[i - 1];
      }
    }
  }

  lemma {:induction false} InsertKeepsSorted(c: Connector, cs: seq<Connector>)
    requires SortedByLines(cs)
    ensures SortedByLines(InsertByLines(c, cs))
  {
    if cs == [] {
    } else if StrictlyBefore(c, cs[0]) {
      forall y | y in cs ensures Before(c, y) {
        var j :| 0 <= j < |cs| && cs[j] == y;
        if j > 0 {
          assert Before(cs[0], cs[j]);
        }
      }
      SortedCons(c, cs);
    } else {
      var rest := InsertByLines(c, cs[1..]);
      assert SortedByLines(cs[1..]) by {
        forall i, j | 0 <= i < j < |cs[1..]| ensures Before(cs[1..][i], cs[1..][j]) {
          assert cs[1..][i] == cs[i + 1] && cs[1..][j] == cs[j + 1];
        }
      }
      InsertKeepsSorted(c, cs[1..]);
      forall y | y in rest ensures Before(cs[0], y) {
        assert y in multiset(rest);
        if y != c {
          assert y in multiset(cs[1..]);
          var j :| 0 <= j < |cs[1..]| && cs[1..][j] == y;
          assert cs[j + 1] == y;
        }
      }
      SortedCons(cs[0], rest);
    }
  }

  /** `connectors.sort(...)`: a stable sort by left line, then right line. */
  function SortByLines(cs: seq<Connector>): (r: seq<Connector>)
    ensures SortedByLines(r)
    ensures multiset(r) == multiset(cs)
  {
    if cs == [] then []
    else
      assert cs == cs[..|cs| - 1] + [cs[|cs| - 1]];
      var sorted := SortByLines(cs[..|cs| - 1]);
      InsertKeepsSorted(cs[|cs| - 1], sorted);
      InsertByLines(cs[|cs| - 1], sorted)
  }

  lemma NumberedSnoc(lines: seq<Line>, es: seq<Entry>, e: Entry)
    requires NumberedFrom(lines, es)
    ensures NumberedFrom(lines + [Line(e.kind, e.content, |lines| + 1)], es + [e])
  {
  }

  lemma CountKindSnoc(lines: seq<Line>, l: Line, k: Kind)
    ensures CountKind(lines + [l], k) == CountKind(lines, k) + (if l.kind == k then 1 else 0)
  {
    assert (lines + [l])[..|lines|] == lines;
  }

  lemma LastRemovedSnoc(lines: seq<Line>, i: int)
    requires 0 <= i < |lines|
    ensures LastRemoved(lines[..i + 1]) == if lines[i].kind == Removed then i else LastRemoved(lines[..i])
  {
    assert lines[..i + 1][..i] == lines[..i];
  }

  lemma AddedConnectorsSnoc(left: seq<Line>, right: seq<Line>, i: int)
    requires 0 <= i < |right|
    ensures AddedConnectors(left, right[..i + 1]) ==
      AddedConnectors(left, right[..i]) +
        (if right[i].kind == Added && LastRemoved(left) >= 0
         then [Connector(Added, left[LastRemoved(left)].number, right[i].number)] else [])
  {
    assert right[..i + 1][..i] == right[..i];
  }

  /** Filtering a run of entries that all have one kind keeps all of it or none. */
  lemma {:induction false} FilterUniform(es: seq<Entry>, k: Kind, p: Entry -> bool)
    requires forall i :: 0 <= i < |es| ==> es[i].kind == k
    requires forall e: Entry :: e.kind == k ==> p(e) == p(Entry(k, ""))
    ensures Filter(es, p) == if p(Entry(k, "")) then es else []
  {
    if es != [] {
      FilterUniform(es[1..], k, p);
    }
  }

  /** Where the lines of one hunk go: the filtered views grow by the hunk's entries
      on the side(s) that show its kind. */
  lemma HunkSides(done: seq<Entry>, h: Hunk)
    ensures Filter(done + HunkEntries(h), OnLeft) ==
      Filter(done, OnLeft) + (if h.kind != Added then HunkEntries(h) else [])
    ensures Filter(done + HunkEntries(h), OnRight) ==
      Filter(done, OnRight) + (if h.kind != Removed then HunkEntries(h) else [])
  {
    FilterAppend(done, HunkEntries(h), OnLeft);
    FilterAppend(done, HunkEntries(h), OnRight);
    FilterUniform(HunkEntries(h), h.kind, OnLeft);
    FilterUniform(HunkEntries(h), h.kind, OnRight);
  }

  /** The counters of `processChanges` agree with the panes built so far. */
  predicate CountsMatch(left: seq<Line>, right: seq<Line>, stats: DiffStats)
  {
    stats == DiffStats(CountKind(right, Added), CountKind(left, Removed), CountKind(left, Unchanged))
  }

  /** `lines.forEach` of an added hunk: each line goes to the right pane. */
  method PushAdded(lines: seq<string>, right0: seq<Line>, added0: nat, ghost rightEs: seq<Entry>)
    returns (right: seq<Line>, addedCount: nat)
    requires NumberedFrom(right0, rightEs) && added0 == CountKind(right0, Added)
    ensures NumberedFrom(right, rightEs + seq(|lines|, i requires 0 <= i < |lines| => Entry(Added, lines[i])))
    ensures addedCount == CountKind(right, Added)
  {
    ghost var es := seq(|lines|, i requires 0 <= i < |lines| => Entry(Added, lines[i]));
    right, addedCount := right0, added0;
    var rightLineNumber := |right| + 1;
    var k := 0;
    while k < |lines|
      invariant 0 <= k <= |lines|
      invariant NumberedFrom(right, rightEs + es[..k])
      invariant rightLineNumber == |right| + 1
      invariant addedCount == CountKind(right, Added)
    {
      var line := Line(Added, lines[k], rightLineNumber);
      assert rightEs + es[..k + 1] == (rightEs + es[..k]) + [es[k]];
      NumberedSnoc(right, rightEs + es[..k], es[k]);
      CountKindSnoc(right, line, Added);
      right := right + [line];
      rightLineNumber := rightLineNumber + 1;
      addedCount := addedCount + 1;
      k := k + 1;
    }
    assert es[..k] == es;
  }

  /** `lines.forEach` of a removed hunk: each line goes to the left pane. */
  method PushRemoved(lines: seq<string>, left0: seq<Line>, removed0: nat, unchanged0: nat,
                     ghost leftEs: seq<Entry>)
    returns (left: seq<Line>, removedCount: nat)
    requires NumberedFrom(left0, leftEs)
    requires removed0 == CountKind(left0, Removed) && unchanged0 == CountKind(left0, Unchanged)
    ensures NumberedFrom(left, leftEs + seq(|lines|, i requires 0 <= i < |lines| => Entry(Removed, lines[i])))
    ensures removedCount == CountKind(left, Removed) && unchanged0 == CountKind(left, Unchanged)
  {
    ghost var es := seq(|lines|, i requires 0 <= i < |lines| => Entry(Removed, lines[i]));
    left, removedCount := left0, removed0;
    var leftLineNumber := |left| + 1;
    var k := 0;
    while k < |lines|
      invariant 0 <= k <= |lines|
      invariant NumberedFrom(left, leftEs + es[..k])
      invariant leftLineNumber == |left| + 1
      invariant removedCount == CountKind(left, Removed)
      invariant unchanged0 == CountKind(left, Unchanged)
    {
      var line := Line(Removed, lines[k], leftLineNumber);
      assert leftEs + es[..k + 1] == (leftEs + es[..k]) + [es[k]];
      NumberedSnoc(left, leftEs + es[..k], es[k]);
      CountKindSnoc(left, line, Removed);
      CountKindSnoc(left, line, Unchanged);
      left := left + [line];
      leftLineNumber := leftLineNumber + 1;
      removedCount := removedCount + 1;
      k := k + 1;
    }
    assert es[..k] == es;
  }

  /** `lines.forEach` of an unchanged hunk: each line goes to both panes, with each
      pane's own next number, and is counted once. */
  method PushUnchanged(lines: seq<string>, left0: seq<Line>, right0: seq<Line>, stats0: DiffStats,
                       ghost leftEs: seq<Entry>, ghost rightEs: seq<Entry>)
    returns (left: seq<Line>, right: seq<Line>, stats: DiffStats)
    requires NumberedFrom(left0, leftEs) && NumberedFrom(right0, rightEs)
    requires CountsMatch(left0, right0, stats0)
    ensures NumberedFrom(left, leftEs + seq(|lines|, i requires 0 <= i < |lines| => Entry(Unchanged, lines[i])))
    ensures NumberedFrom(right, rightEs + seq(|lines|, i requires 0 <= i < |lines| => Entry(Unchanged, lines[i])))
    ensures CountsMatch(left, right, stats)
  {
    ghost var es := seq(|lines|, i requires 0 <= i < |lines| => Entry(Unchanged, lines[i]));
    left, right := left0, right0;
    var leftLineNumber := |left| + 1;
    var rightLineNumber := |right| + 1;
    var unchangedCount := stats0.unchangedLines;
    var k := 0;
    while k < |lines|
      invariant 0 <= k <= |lines|
      invariant NumberedFrom(left, leftEs + es[..k])
      invariant NumberedFrom(right, rightEs + es[..k])
      invariant leftLineNumber == |left| + 1 && rightLineNumber == |right| + 1
      invariant CountsMatch(left, right, stats0.(unchangedLines := unchangedCount))
    {
      var leftLine := Line(Unchanged, lines[k], leftLineNumber);
      var rightLine := Line(Unchanged, lines[k], rightLineNumber);
      assert leftEs + es[..k + 1] == (leftEs + es[..k]) + [es[k]];
      assert rightEs + es[..k + 1] == (rightEs + es[..k]) + [es[k]];
      NumberedSnoc(left, leftEs + es[..k], es[k]);
      NumberedSnoc(right, rightEs + es[..k], es[k]);
      CountKindSnoc(left, leftLine, Removed);
      CountKindSnoc(left, leftLine, Unchanged);
      CountKindSnoc(right, rightLine, Added);
      left := left + [leftLine];
      right := right + [rightLine];
      leftLineNumber := leftLineNumber + 1;
      rightLineNumber := rightLineNumber + 1;
      unchangedCount := unchangedCount + 1;
      k := k + 1;
    }
    assert es[..k] == es;
    stats := stats0.(unchangedLines := unchangedCount);
  }

  /** The body of the hunk walk for one hunk: split its value into lines (popping one
      trailing ''), then push the lines to the pane(s) of the hunk's kind. */
  method PushHunk(part: Hunk, left0: seq<Line>, right0: seq<Line>, stats0: DiffStats,
                  ghost leftEs: seq<Entry>, ghost rightEs: seq<Entry>)
    returns (left: seq<Line>, right: seq<Line>, stats: DiffStats)
    requires NumberedFrom(left0, leftEs) && NumberedFrom(right0, rightEs)
    requires CountsMatch(left0, right0, stats0)
    ensures NumberedFrom(left, leftEs + (if part.kind != Added then HunkEntries(part) else []))
    ensures NumberedFrom(right, rightEs + (if part.kind != Removed then HunkEntries(part) else []))
    ensures CountsMatch(left, right, stats)
  {
    var lines := Split(part.value, '\n');
    if lines[|lines| - 1] == "" {
      lines := lines[..|lines| - 1];
    }
    assert lines == SplitLines(part.value);
    assert HunkEntries(part) == seq(|lines|, i requires 0 <= i < |lines| => Entry(part.kind, lines[i]));
    left, right, stats := left0, right0, stats0;
    if part.kind == Added {
      var added;
      right, added := PushAdded(lines, right0, stats0.addedLines, rightEs);
      stats := stats0.(addedLines := added);
      assert leftEs + [] == leftEs;
    } else if part.kind == Removed {
      var removed;
      left, removed := PushRemoved(lines, left0, stats0.removedLines, stats0.unchangedLines, leftEs);
      stats := stats0.(removedLines := removed);
      assert rightEs + [] == rightEs;
    } else {
      left, right, stats := PushUnchanged(lines, left0, right0, stats0, leftEs, rightEs);
    }
  }

  /** First half of `processChanges`: walks the hunks, pushing each line with the next
      number of its pane into `left` (removed, unchanged) and `right` (added,
      unchanged), and counts added, removed and unchanged lines. */
  method CollectLines(diff: seq<Hunk>) returns (left: seq<Line>, right: seq<Line>, stats: DiffStats)
    ensures NumberedFrom(left, Filter(Entries(diff), OnLeft))
    ensures NumberedFrom(right, Filter(Entries(diff), OnRight))
    ensures CountsMatch(left, right, stats)
  {
    left, right := [], [];
    stats := DiffStats(0, 0, 0);
    var h := 0;
    while h < |diff|
      invariant 0 <= h <= |diff|
      invariant NumberedFrom(left, Filter(Entries(diff[..h]), OnLeft))
      invariant NumberedFrom(right, Filter(Entries(diff[..h]), OnRight))
      invariant CountsMatch(left, right, stats)
    {
      EntriesSnoc(diff, h);
      HunkSides(Entries(diff[..h]), diff[h]);
      left, right, stats := PushHunk(diff[h], left, right, stats,
                                     Filter(Entries(diff[..h]), OnLeft), Filter(Entries(diff[..h]), OnRight));
      h := h + 1;
    }
    assert diff[..h] == diff;
  }

  /** Second half of `processChanges`: the three connector loops. */
  method LinkLines(left: seq<Line>, right: seq<Line>) returns (connectors: seq<Connector>)
    ensures connectors == AddedConnectors(left, right) + UnchangedConnectors(left, right, Min(|left|, |right|))
  {
    connectors := [];
    var lastLeftRemovedIndex := -1;
    var lastRightAddedIndex := -1;

    var i := 0;
    while i < |left|
      invariant 0 <= i <= |left|
      invariant lastLeftRemovedIndex == LastRemoved(left[..i])
      invariant lastRightAddedIndex == -1
      invariant connectors == []
    {
      LastRemovedSnoc(left, i);
      if left[i].kind == Removed {
        lastLeftRemovedIndex := i;
        if lastRightAddedIndex >= 0 {
          // the 'removed' connector: unreachable, lastRightAddedIndex is still -1
          assert false;
        }
      }
      assert lastLeftRemovedIndex == LastRemoved(left[..i + 1]);
      i := i + 1;
    }
    assert left[..i] == left;

    i := 0;
    while i < |right|
      invariant 0 <= i <= |right|
      invariant lastLeftRemovedIndex == LastRemoved(left)
      invariant connectors == AddedConnectors(left, right[..i])
    {
      AddedConnectorsSnoc(left, right, i);
      if right[i].kind == Added {
        lastRightAddedIndex := i;
        if lastLeftRemovedIndex >= 0 {
          connectors := connectors + [Connector(Added, left[lastLeftRemovedIndex].number, right[i].number)];
        }
      }
      assert connectors == AddedConnectors(left, right[..i + 1]);
      i := i + 1;
    }
    assert right[..i] == right;

    var m := Min(|left|, |right|);
    i := 0;
    while i < m
      invariant 0 <= i <= m
      invariant connectors == AddedConnectors(left, right) + UnchangedConnectors(left, right, i)
    {
      if left[i].kind == Unchanged && right[i].kind == Unchanged {
        connectors := connectors + [Connector(Unchanged, left[i].number, right[i].number)];
      }
      assert connectors == AddedConnectors(left, right) + UnchangedConnectors(left, right, i + 1);
      i := i + 1;
    }

  }

  /** `processChanges`: numbered lines for both panes, the connectors sorted by left
      line then right line, and the line counts. */
  method ProcessChanges(diff: seq<Hunk>) returns (lines: DiffLines, stats: DiffStats)
    ensures NumberedFrom(lines.left, Filter(Entries(diff), OnLeft))
    ensures NumberedFrom(lines.right, Filter(Entries(diff), OnRight))
    ensures CountsMatch(lines.left, lines.right, stats)
    ensures SortedByLines(lines.connectors)
    ensures multiset(lines.connectors) ==
      multiset(AddedConnectors(lines.left, lines.right) +
               UnchangedConnectors(lines.left, lines.right, Min(|lines.left|, |lines.right|)))
  {
    var left, right, counts := CollectLines(diff);
    var connectors := LinkLines(left, right);
    connectors := SortByLines(connectors);
    lines := DiffLines(left, right, connectors);
    stats := counts;
  }

  // ----- What the counts mean -----

  /** Filtering by a predicate that holds for every entry of kind `k` keeps all of them. */
  lemma {:induction false} FilterKeepsKind(es: seq<Entry>, p: Entry -> bool, k: Kind)
    requires forall e: Entry :: e.kind == k ==> p(e)
    ensures CountEntries(Filter(es, p), k) == CountEntries(es, k)
  {
    if es != [] {
      FilterKeepsKind(es[1..], p, k);
      assert es == [es[0]] + es[1..];
      CountEntriesAppend([es[0]], es[1..], k);
      if p(es[0]) {
        CountEntriesAppend([es[0]], Filter(es[1..], p), k);
      } else {
        assert es[0].kind != k;
      }
    }
  }

  /** Filtering by a predicate that fails for every entry of kind `k` keeps none of them. */
  lemma {:induction false} FilterDropsKind(es: seq<Entry>, p: Entry -> bool, k: Kind)
    requires forall e: Entry :: e.kind == k ==> !p(e)
    ensures CountEntries(Filter(es, p), k) == 0
  {
    if es != [] {
      FilterDropsKind(es[1..], p, k);
      CountEntriesAppend(if p(es[0]) then [es[0]] else [], Filter(es[1..], p), k);
      assert Filter(es, p) == (if p(es[0]) then [es[0]] else []) + Filter(es[1..], p);
    }
  }

  /** Filtering a list to one pane keeps every line of the kinds that pane shows and
      drops every line of the kind it does not. */
  lemma FilterCounts(es: seq<Entry>)
    ensures CountEntries(Filter(es, OnLeft), Removed) == CountEntries(es, Removed)
    ensures CountEntries(Filter(es, OnLeft), Unchanged) == CountEntries(es, Unchanged)
    ensures CountEntries(Filter(es, OnLeft), Added) == 0
    ensures CountEntries(Filter(es, OnRight), Added) == CountEntries(es, Added)
    ensures CountEntries(Filter(es, OnRight), Unchanged) == CountEntries(es, Unchanged)
    ensures CountEntries(Filter(es, OnRight), Removed) == 0
  {
    FilterKeepsKind(es, OnLeft, Removed);
    FilterKeepsKind(es, OnLeft, Unchanged);
    FilterDropsKind(es, OnLeft, Added);
    FilterKeepsKind(es, OnRight, Added);
    FilterKeepsKind(es, OnRight, Unchanged);
    FilterDropsKind(es, OnRight, Removed);
  }

  /** A numbered pane has as many lines of each kind as the entries it carries. */
  lemma {:induction false} CountKindOfNumbered(lines: seq<Line>, es: seq<Entry>, k: Kind)
    requires NumberedFrom(lines, es)
    ensures CountKind(lines, k) == CountEntries(es, k)
  {
    if lines != [] {
      CountKindOfNumbered(lines[..|lines| - 1], es[..|es| - 1], k);
    }
  }

  /** Every line has one of the three kinds. */
  lemma {:induction false} PaneSize(lines: seq<Line>)
    ensures |lines| == CountKind(lines, Added) + CountKind(lines, Removed) + CountKind(lines, Unchanged)
  {
    if lines != [] {
      PaneSize(lines[..|lines| - 1]);
    }
  }

  /** The statistics of `processChanges`: added, removed and unchanged are the numbers
      of lines of each kind in the hunk list; the left pane has the removed and
      unchanged lines, the right pane the added and unchanged ones. */
  lemma ProcessedCounts(diff: seq<Hunk>, lines: DiffLines, stats: DiffStats)
    requires NumberedFrom(lines.left, Filter(Entries(diff), OnLeft))
    requires NumberedFrom(lines.right, Filter(Entries(diff), OnRight))
    requires CountsMatch(lines.left, lines.right, stats)
    ensures stats.addedLines == CountEntries(Entries(diff), Added)
    ensures stats.removedLines == CountEntries(Entries(diff), Removed)
    ensures stats.unchangedLines == CountEntries(Entries(diff), Unchanged)
    ensures stats.unchangedLines == CountKind(lines.right, Unchanged)
    ensures |lines.left| == stats.removedLines + stats.unchangedLines
    ensures |lines.right| == stats.addedLines + stats.unchangedLines
  {
    var es := Entries(diff);
    FilterCounts(es);
    CountKindOfNumbered(lines.left, Filter(es, OnLeft), Added);
    CountKindOfNumbered(lines.left, Filter(es, OnLeft), Removed);
    CountKindOfNumbered(lines.left, Filter(es, OnLeft), Unchanged);
    CountKindOfNumbered(lines.right, Filter(es, OnRight), Added);
    CountKindOfNumbered(lines.right, Filter(es, OnRight), Removed);
    CountKindOfNumbered(lines.right, Filter(es, OnRight), Unchanged);
    PaneSize(lines.left);
    PaneSize(lines.right);
  }

  /** Round trip of the line split: the lines a hunk contributes re-join (with the
      popped '\n' put back) to the hunk's value. */
  lemma HunkLinesRoundTrip(h: Hunk)
    requires h.value != ""
    ensures var es := HunkEntries(h);
      Join(seq(|es|, i requires 0 <= i < |es| => es[i].content), '\n') +
        (if EndsWithNewline(h.value) then "\n" else "") == h.value
  {
    var es := HunkEntries(h);
    assert seq(|es|, i requires 0 <= i < |es| => es[i].content) == SplitLines(h.value);
    SplitLinesRoundTrip(h.value);
  }

  // ----- What the connectors mean -----

  /** The right-pane loop: with no removed line on the left there are no connectors;
      otherwise there is one per added right line, each of kind added, tied to the
      last removed left line and to that right line. */
  lemma {:induction false} AddedConnectorsMeaning(left: seq<Line>, right: seq<Line>)
    ensures LastRemoved(left) < 0 ==> AddedConnectors(left, right) == []
    ensures LastRemoved(left) >= 0 ==> |AddedConnectors(left, right)| == CountKind(right, Added)
    ensures forall c :: c in AddedConnectors(left, right) ==>
      c.kind == Added && c.leftLine == left[LastRemoved(left)].number &&
      exists j :: 0 <= j < |right| && right[j].kind == Added && c.rightLine == right[j].number
    ensures LastRemoved(left) >= 0 ==> forall j :: 0 <= j < |right| && right[j].kind == Added ==>
      Connector(Added, left[LastRemoved(left)].number, right[j].number) in AddedConnectors(left, right)
  {
    if right != [] {
      var init := right[..|right| - 1];
      AddedConnectorsMeaning(left, init);
      forall c | c in AddedConnectors(left, init)
        ensures exists j :: 0 <= j < |right| && right[j].kind == Added && c.rightLine == right[j].number
      {
        var j :| 0 <= j < |init| && init[j].kind == Added && c.rightLine == init[j].number;
        assert right[j] == init[j];
      }
      if LastRemoved(left) >= 0 {
        forall j | 0 <= j < |right| && right[j].kind == Added
          ensures Connector(Added, left[LastRemoved(left)].number, right[j].number) in AddedConnectors(left, right)
        {
          if j < |init| {
            assert right[j] == init[j];
          }
        }
      }
    }
  }

  /** The index-pairing loop: a connector exists for index `i` below `n` exactly when
      both lines at `i` are unchanged; when the panes are numbered from 1 it joins
      line `i + 1` on the left to line `i + 1` on the right. */
  lemma {:induction false} UnchangedConnectorsMeaning(left: seq<Line>, right: seq<Line>, n: nat)
    requires n <= |left| && n <= |right|
    requires forall i :: 0 <= i < |left| ==> left[i].number == i + 1
    requires forall i :: 0 <= i < |right| ==> right[i].number == i + 1
    ensures forall c :: c in UnchangedConnectors(left, right, n) ==>
      c.kind == Unchanged && c.leftLine == c.rightLine && 1 <= c.leftLine <= n &&
      left[c.leftLine - 1].kind == Unchanged && right[c.leftLine - 1].kind == Unchanged
    ensures forall i :: 0 <= i < n && left[i].kind == Unchanged && right[i].kind == Unchanged ==>
      Connector(Unchanged, i + 1, i + 1) in UnchangedConnectors(left, right, n)
  {
    if n > 0 {
      UnchangedConnectorsMeaning(left, right, n - 1);
    }
  }

  /** No connector of kind removed is ever produced: the left-pane loop could only
      emit one after an added right line had been seen, and the right pane has not
      been visited yet at that point. */
  lemma NoRemovedConnector(lines: DiffLines)
    requires multiset(lines.connectors) ==
      multiset(AddedConnectors(lines.left, lines.right) +
               UnchangedConnectors(lines.left, lines.right, Min(|lines.left|, |lines.right|)))
    requires forall i :: 0 <= i < |lines.left| ==> lines.left[i].number == i + 1
    requires forall i :: 0 <= i < |lines.right| ==> lines.right[i].number == i + 1
    ensures forall c :: c in lines.connectors ==> c.kind != Removed
  {
    var n := Min(|lines.left|, |lines.right|);
    AddedConnectorsMeaning(lines.left, lines.right);
    UnchangedConnectorsMeaning(lines.left, lines.right, n);
    forall c | c in lines.connectors ensures c.kind != Removed {
      assert c in multiset(lines.connectors);
      assert c in AddedConnectors(lines.left, lines.right) + UnchangedConnectors(lines.left, lines.right, n);
    }
  }

  // ----- Page helpers -----

  /** `getDisplayName`: 'nonexistent' for a missing or empty path, otherwise the text
      after the last '/', which contains no '/' and ends the path. */
  function DisplayName(path: Option<string>): (r: string)
    ensures !Truthy(path) ==> r == "nonexistent"
    ensures Truthy(path) ==> '/' !in r && |r| <= |path.value| && path.value[|path.value| - |r|..] == r
    ensures Truthy(path) && |r| < |path.value| ==> path.value[|path.value| - |r| - 1] == '/'
  {
    if Truthy(path) then
      var parts := Split(path.value, '/');
      SplitLastIsAfterLast(path.value, '/');
      parts[|parts| - 1]
    else "nonexistent"
  }

  /** `getFileExtension`: '' for a missing path or one without '.', otherwise the text
      after the last '.', lower-cased. */
  function FileExtensionOf(path: Option<string>): (r: string)
    ensures !Truthy(path) ==> r == ""
    ensures Truthy(path) && '.' !in path.value ==> r == ""
    ensures Truthy(path) && '.' in path.value ==> r == Lower(AfterLast(path.value, '.'))
  {
    if !Truthy(path) then ""
    else
      var parts := Split(path.value, '.');
      CountCharPositive(path.value, '.');
      SplitLength(path.value, '.');
      SplitLastIsAfterLast(path.value, '.');
      if |parts| > 1 then Lower(parts[|parts| - 1]) else ""
  }

  /** The page's extension: B's when it is non-empty, otherwise A's. */
  function PageExtension(pathA: Option<string>, pathB: Option<string>): (r: string)
    ensures FileExtensionOf(pathB) != "" ==> r == FileExtensionOf(pathB)
    ensures FileExtensionOf(pathB) == "" ==> r == FileExtensionOf(pathA)
  {
    var b := FileExtensionOf(pathB);
    if b != "" then b else FileExtensionOf(pathA)
  }

  /** What `findFileIndex` gives the page: no file, a file's index, or the `URIError`
      that `decodeURIComponent` throws on a malformed escape, which the page's `catch`
      turns into its error message. */
  datatype Lookup = NoFile | FoundAt(index: nat) | DecodeError

  /** `findFileIndex`: no file for a missing or empty target; a decode error when the
      target does not decode; otherwise the first index whose path equals the decoded
      target, or no file when no path does. URI decoding is a parameter, `None` standing
      for the thrown error. */
  function FindFileIndex(paths: seq<string>, target: Option<string>, decode: string -> Option<string>): (r: Lookup)
    ensures !Truthy(target) ==> r == NoFile
    ensures r == DecodeError <==> Truthy(target) && decode(target.value).None?
    ensures r.FoundAt? ==> (Truthy(target) && decode(target.value).Some? &&
                            r.index < |paths| && paths[r.index] == decode(target.value).value &&
                            forall j :: 0 <= j < r.index ==> paths[j] != decode(target.value).value)
    ensures Truthy(target) && decode(target.value).Some? && r == NoFile ==>
      forall j :: 0 <= j < |paths| ==> paths[j] != decode(target.value).value
  {
    if !Truthy(target) then NoFile
    else match decode(target.value)
      case None => DecodeError
      case Some(path) =>
        match FirstIndexOf(paths, path, 0)
        case Some(i) => FoundAt(i)
        case None => NoFile
  }

  /** `findIndex` from position `from` on. */
  function FirstIndexOf(paths: seq<string>, x: string, from: nat): (r: Option<nat>)
    requires from <= |paths|
    ensures r.Some? ==> (from <= r.value < |paths| && paths[r.value] == x &&
                         forall j :: from <= j < r.value ==> paths[j] != x)
    ensures r == None ==> forall j :: from <= j < |paths| ==> paths[j] != x
    decreases |paths| - from
  {
    if from == |paths| then None
    else if paths[from] == x then Some(from)
    else FirstIndexOf(paths, x, from + 1)
  }

  /** The page reports 'No differences found between files' when both panes are empty. */
  predicate NoDifferences(lines: DiffLines)
  {
    |lines.left| == 0 && |lines.right| == 0
  }

  /** Both panes are empty exactly when every hunk value is empty: every line lands in
      at least one pane. Two identical non-empty files still give unchanged lines, so
      the message appears only for two empty (or unread) files. */
  lemma NoDifferencesIffAllEmpty(diff: seq<Hunk>, lines: DiffLines)
    requires NumberedFrom(lines.left, Filter(Entries(diff), OnLeft))
    requires NumberedFrom(lines.right, Filter(Entries(diff), OnRight))
    ensures NoDifferences(lines) <==> forall h :: h in diff ==> h.value == ""
  {
    var es := Entries(diff);
    NoEntriesIffAllEmpty(diff);
    if es != [] {
      assert es[0] in es;
      if es[0].kind == Added {
        assert es[0] in Filter(es, OnRight);
      } else {
        assert es[0] in Filter(es, OnLeft);
      }
    }
  }
}
