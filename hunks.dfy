/** The hunk list produced by the line-diff library, and the way the viewer cuts a
    hunk's text into lines: `value.split('\n')` with one trailing empty piece
    dropped. The diff library itself is not part of this model; its output is the
    input here. */
module Hunks {
  import opened Common

  datatype Kind = Added | Removed | Unchanged

  /** One element of the diff library's result: a run of text and its status. */
  datatype Hunk = Hunk(value: string, kind: Kind)

  /** An element as seen by code that checks its shape: a null element or one whose
      `value` is not a string is `Malformed`. */
  datatype Part = Valid(hunk: Hunk) | Malformed

  /** One line together with the kind of the hunk it came from. */
  datatype Entry = Entry(kind: Kind, content: string)

  predicate EndsWithNewline(v: string)
  {
    |v| > 0 && v[|v| - 1] == '\n'
  }

  /** The lines of a hunk value: `split('\n')`, then one trailing '' popped. */
  function SplitLines(v: string): (r: seq<string>)
  {
    var pieces := Split(v, '\n');
    if pieces[|pieces| - 1] == "" then pieces[..|pieces| - 1] else pieces
  }

  /** No line contains '\n'. */
  lemma SplitLinesLackNewline(v: string)
    ensures forall i :: 0 <= i < |SplitLines(v)| ==> '\n' !in SplitLines(v)[i]
  {
    SplitPiecesLackSep(v, '\n');
  }

  /** The pop happens exactly when the value is empty or ends with a newline. */
  lemma PopsIffTrailingNewline(v: string)
    ensures var pieces := Split(v, '\n');
      (pieces[|pieces| - 1] == "") <==> (v == "" || EndsWithNewline(v))
  {
    SplitLastIsAfterLast(v, '\n');
  }

  /** Only the empty value has no lines. */
  lemma {:induction false} NoLinesIffEmpty(v: string)
    ensures SplitLines(v) == [] <==> v == ""
  {
    var pieces := Split(v, '\n');
    JoinSplit(v, '\n');
    if SplitLines(v) == [] {
      assert |pieces| == 1 && pieces[0] == "";
    }
  }

  lemma {:induction false} JoinSnoc(parts: seq<string>, x: string, sep: char)
    requires |parts| > 0
    ensures Join(parts + [x], sep) == Join(parts, sep) + [sep] + x
  {
    if |parts| > 1 {
      JoinSnoc(parts[1..], x, sep);
      assert (parts + [x])[1..] == parts[1..] + [x];
    }
  }

  /** Round trip: re-joining the lines with '\n', and putting back the '\n' that the
      pop removed, gives the hunk value back (the empty value has no lines at all). */
  lemma {:induction false} SplitLinesRoundTrip(v: string)
    requires v != ""
    ensures Join(SplitLines(v), '\n') + (if EndsWithNewline(v) then "\n" else "") == v
  {
    var pieces := Split(v, '\n');
    JoinSplit(v, '\n');
    PopsIffTrailingNewline(v);
    if EndsWithNewline(v) {
      var n := |pieces|;
      assert pieces == pieces[..n - 1] + [""];
      JoinSnoc(pieces[..n - 1], "", '\n');
    }
  }

  /** The number of lines a hunk contributes, as the statistics count it:
      `split('\n').length - 1 || 1`. */
  function StatLines(v: string): (n: nat)
    ensures n >= 1
  {
    var k := |Split(v, '\n')| - 1;
    if k == 0 then 1 else k
  }

  /** The statistics count the newlines of a hunk value, and at least one. */
  lemma StatLinesCountsNewlines(v: string)
    ensures StatLines(v) == (if CountChar(v, '\n') == 0 then 1 else CountChar(v, '\n'))
  {
    SplitLength(v, '\n');
  }

  /** The statistics count and the number of lines actually emitted differ: a hunk
      whose text does not end in '\n' has one more emitted line than newlines, and
      an empty value is counted as one line although it emits none. */
  lemma {:induction false} StatLinesVersusEmitted(v: string)
    ensures v == "" ==> StatLines(v) == 1 && |SplitLines(v)| == 0
    ensures EndsWithNewline(v) ==> StatLines(v) == |SplitLines(v)|
    ensures v != "" && !EndsWithNewline(v) ==>
      |SplitLines(v)| == CountChar(v, '\n') + 1 &&
      StatLines(v) == (if CountChar(v, '\n') == 0 then 1 else |SplitLines(v)| - 1)
  {
    PopsIffTrailingNewline(v);
    NoLinesIffEmpty(v);
    SplitLength(v, '\n');
    CountCharPositive(v, '\n');
  }

  /** The lines of one hunk, tagged with its kind. */
  function HunkEntries(h: Hunk): (r: seq<Entry>)
    ensures |r| == |SplitLines(h.value)|
  {
    var lines := SplitLines(h.value);
    seq(|lines|, i requires 0 <= i < |lines| => Entry(h.kind, lines[i]))
  }

  /** All lines of a hunk list in document order. */
  function Entries(diff: seq<Hunk>): seq<Entry>
  {
    if diff == [] then [] else Entries(diff[..|diff| - 1]) + HunkEntries(diff[|diff| - 1])
  }

  lemma EntriesSnoc(diff: seq<Hunk>, h: int)
    requires 0 <= h < |diff|
    ensures Entries(diff[..h + 1]) == Entries(diff[..h]) + HunkEntries(diff[h])
  {
    assert diff[..h + 1][..h] == diff[..h];
  }

  lemma EntriesAppendOne(diff: seq<Hunk>, h: Hunk)
    ensures Entries(diff + [h]) == Entries(diff) + HunkEntries(h)
  {
    assert (diff + [h])[..|diff|] == diff;
  }

  /** A hunk list has no lines exactly when every hunk value is empty. */
  lemma {:induction false} NoEntriesIffAllEmpty(diff: seq<Hunk>)
    ensures Entries(diff) == [] <==> forall h :: h in diff ==> h.value == ""
  {
    if diff != [] {
      var init := diff[..|diff| - 1];
      NoEntriesIffAllEmpty(init);
      NoLinesIffEmpty(diff[|diff| - 1].value);
      assert diff == init + [diff[|diff| - 1]];
    }
  }

  /** Lines shown in the left pane (removed and unchanged) and the right pane
      (added and unchanged). */
  predicate OnLeft(e: Entry) { e.kind != Added }
  predicate OnRight(e: Entry) { e.kind != Removed }

  lemma {:induction false} FilterAppend(a: seq<Entry>, b: seq<Entry>, p: Entry -> bool)
    ensures Filter(a + b, p) == Filter(a, p) + Filter(b, p)
  {
    if a != [] {
      FilterAppend(a[1..], b, p);
      assert (a + b)[0] == a[0];
      assert (a + b)[1..] == a[1..] + b;
    } else {
      assert a + b == b;
    }
  }

  /** Appending one entry to a list grows its filtered view by that entry or not at all. */
  lemma FilterSnoc(a: seq<Entry>, e: Entry, p: Entry -> bool)
    ensures Filter(a + [e], p) == Filter(a, p) + (if p(e) then [e] else [])
  {
    FilterAppend(a, [e], p);
  }

  /** Line counts by kind. */
  datatype DiffStats = DiffStats(addedLines: nat, removedLines: nat, unchangedLines: nat)

  /** Number of entries of kind `k`. */
  function CountEntries(es: seq<Entry>, k: Kind): nat
  {
    if es == [] then 0
    else CountEntries(es[..|es| - 1], k) + (if es[|es| - 1].kind == k then 1 else 0)
  }

  lemma {:induction false} CountEntriesAppend(a: seq<Entry>, b: seq<Entry>, k: Kind)
    ensures CountEntries(a + b, k) == CountEntries(a, k) + CountEntries(b, k)
  {
    if b != [] {
      CountEntriesAppend(a, b[..|b| - 1], k);
      assert (a + b)[..|a + b| - 1] == a + b[..|b| - 1];
    } else {
      assert a + b == a;
    }
  }

  /** The lines of one hunk all have the hunk's kind. */
  lemma {:induction false} CountHunkEntries(h: Hunk, k: Kind)
    ensures CountEntries(HunkEntries(h), k) == if h.kind == k then |SplitLines(h.value)| else 0
  {
    CountUniform(HunkEntries(h), h.kind, k);
  }

  lemma {:induction false} CountUniform(es: seq<Entry>, kind: Kind, k: Kind)
    requires forall i :: 0 <= i < |es| ==> es[i].kind == kind
    ensures CountEntries(es, k) == if kind == k then |es| else 0
  {
    if es != [] {
      CountUniform(es[..|es| - 1], kind, k);
    }
  }

  /** Every line of a hunk list is free of '\n'. */
  lemma {:induction false} EntriesHaveNoNewline(diff: seq<Hunk>)
    ensures forall i :: 0 <= i < |Entries(diff)| ==> '\n' !in Entries(diff)[i].content
  {
    if diff != [] {
      EntriesHaveNoNewline(diff[..|diff| - 1]);
      SplitLinesLackNewline(diff[|diff| - 1].value);
    }
  }
}
