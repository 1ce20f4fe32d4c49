/** The side-by-side diff viewer: the guard that keeps the three scrolling panes (left
    text, connector column, right text) at the same offset, the height of the content,
    and the language chosen for syntax highlighting.

    A scroll event from one pane is copied to the other two in the next animation frame.
    While a copy is pending, events from the other panes are ignored, so that the copy
    does not echo back. The browser's frame queue is part of the state: a scheduled frame
    waits in `pending` until the browser runs it, and cancelling a frame removes it. */
module ScrollSync {
  import opened Common

  /** Height of one rendered line, in pixels. */
  const LineHeight: nat := 24

  datatype Pane = Left | Right | Connector

  /** A scheduled animation frame: its id, the pane whose event scheduled it (none for a
      resize) and the offset it copies. */
  datatype Frame = Frame(id: nat, source: Option<Pane>, scrollTop: int)

  /** The three panes' scroll offsets. */
  datatype Panes = Panes(left: int, right: int, connector: int)

  /** The guard's record, the browser's frame queue and its next frame id, and the
      panes. */
  datatype SyncState = SyncState(
    source: Option<Pane>,
    scrolling: bool,
    frameId: Option<nat>,
    pending: seq<Frame>,
    nextId: nat,
    panes: Panes)

  function Top(p: Panes, which: Pane): int
  {
    match which
    case Left => p.left
    case Right => p.right
    case Connector => p.connector
  }

  /** The panes after one pane alone moves to `top`. */
  function Moved(p: Panes, which: Pane, top: int): Panes
  {
    match which
    case Left => p.(left := top)
    case Right => p.(right := top)
    case Connector => p.(connector := top)
  }

  /** The panes after a frame scheduled by `source` runs: every other pane takes `top`. */
  function Written(p: Panes, source: Option<Pane>, top: int): Panes
  {
    Panes(
      if source == Some(Left) then p.left else top,
      if source == Some(Right) then p.right else top,
      if source == Some(Connector) then p.connector else top)
  }

  /** A frame writes its offset to every pane except the one that scheduled it, which
      keeps its own offset. */
  lemma WrittenPanes(p: Panes, source: Option<Pane>, top: int, which: Pane)
    ensures Top(Written(p, source, top), which) == if source == Some(which) then Top(p, which) else top
  {
  }

  /** A resize schedules a frame with no source from the left pane's offset: all three
      panes end at the left pane's offset. */
  lemma ResizeAligns(p: Panes)
    ensures var q := Written(p, None, p.left); q.left == q.right == q.connector == p.left
  {
  }

  /** Before any event: nothing pending, browser frame ids start at 1. */
  function Initial(p: Panes): SyncState
  {
    SyncState(None, false, None, [], 1, p)
  }

  /** An event from `source` is handled unless a copy from another source is pending. */
  predicate Accepts(s: SyncState, source: Option<Pane>)
  {
    !(s.scrolling && s.source != source)
  }

  /** The frame queue after `cancelAnimationFrame(id)`; cancelling no frame does nothing. */
  function Cancel(pending: seq<Frame>, id: Option<nat>): seq<Frame>
  {
    if id.None? then pending else Filter(pending, (f: Frame) => f.id != id.value)
  }

  /** Records the event and schedules its frame. */
  function Schedule(s: SyncState, source: Option<Pane>, top: int): SyncState
  {
    SyncState(source, true, Some(s.nextId), s.pending + [Frame(s.nextId, source, top)], s.nextId + 1, s.panes)
  }

  /** The handler as written: the record is replaced, its frame id with it, before the
      cancel, so the cancel is given no frame and a frame scheduled earlier stays queued. */
  function SyncedAsWritten(s: SyncState, source: Option<Pane>, top: int): SyncState
  {
    if !Accepts(s, source) then s
    else
      var reset := s.(source := source, scrolling := true, frameId := None);
      Schedule(reset.(pending := Cancel(reset.pending, reset.frameId)), source, top)
  }

  /** The handler with the cancel applied to the frame scheduled before. */
  function Synced(s: SyncState, source: Option<Pane>, top: int): SyncState
  {
    if !Accepts(s, source) then s
    else Schedule(s.(pending := Cancel(s.pending, s.frameId)), source, top)
  }

  /** The panes after the frames `fs` run in order, oldest first. */
  function RunAll(p: Panes, fs: seq<Frame>): Panes
    decreases |fs|
  {
    if fs == [] then p
    else
      var last := fs[|fs| - 1];
      Written(RunAll(p, fs[..|fs| - 1]), last.source, last.scrollTop)
  }

  /** The browser's next frame: every frame queued before it starts runs, oldest first;
      each writes the panes other than its source and lets new events through. With
      nothing queued nothing happens. */
  function Ran(s: SyncState): SyncState
  {
    if s.pending == [] then s
    else s.(pending := [], scrolling := false, panes := RunAll(s.panes, s.pending))
  }

  /** The user scrolls pane `which` to `top`, which fires its scroll event. */
  function AfterScroll(s: SyncState, which: Pane, top: int): SyncState
  {
    Synced(s.(panes := Moved(s.panes, which, top)), Some(which), top)
  }

  function AfterScrollAsWritten(s: SyncState, which: Pane, top: int): SyncState
  {
    SyncedAsWritten(s.(panes := Moved(s.panes, which, top)), Some(which), top)
  }

  /** At most one frame is queued, exactly while a copy is in progress, and it is the
      frame the record names, scheduled by the recorded source. */
  predicate Settled(s: SyncState)
  {
    |s.pending| <= 1 &&
    (s.scrolling <==> |s.pending| == 1) &&
    (|s.pending| == 1 ==> s.frameId == Some(s.pending[0].id) && s.pending[0].source == s.source)
  }

  /** What the handler as written keeps: frames are queued exactly while a copy is in
      progress, and every one of them was scheduled by the recorded source. */
  predicate InStep(s: SyncState)
  {
    (s.scrolling <==> s.pending != []) &&
    forall i :: 0 <= i < |s.pending| ==> s.pending[i].source == s.source
  }

  lemma InitialSettled(p: Panes)
    ensures Settled(Initial(p)) && InStep(Initial(p))
  {
  }

  lemma SettledInStep(s: SyncState)
    requires Settled(s)
    ensures InStep(s)
  {
  }

  /** An ignored event changes nothing. An accepted one records its source, marks a copy
      in progress and leaves exactly one frame queued, carrying its offset. */
  lemma SyncedMeaning(s: SyncState, source: Option<Pane>, top: int)
    requires Settled(s)
    ensures !Accepts(s, source) ==> Synced(s, source, top) == s
    ensures Accepts(s, source) ==>
      var t := Synced(s, source, top);
      t.source == source && t.scrolling && t.panes == s.panes &&
      t.pending == [Frame(s.nextId, source, top)]
  {
    if Accepts(s, source) && |s.pending| == 1 {
      assert s.pending == [s.pending[0]];
      assert Cancel(s.pending, s.frameId) == [];
    }
  }

  lemma SyncedKeepsSettled(s: SyncState, source: Option<Pane>, top: int)
    requires Settled(s)
    ensures Settled(Synced(s, source, top))
  {
    SyncedMeaning(s, source, top);
  }

  /** As written, an accepted event adds its frame behind the ones already queued, which
      all come from the same source, and keeps `InStep`. */
  lemma SyncedAsWrittenMeaning(s: SyncState, source: Option<Pane>, top: int)
    requires InStep(s)
    ensures !Accepts(s, source) ==> SyncedAsWritten(s, source, top) == s
    ensures Accepts(s, source) ==>
      var t := SyncedAsWritten(s, source, top);
      t.source == source && t.scrolling && t.panes == s.panes &&
      t.pending == s.pending + [Frame(s.nextId, source, top)]
    ensures InStep(SyncedAsWritten(s, source, top))
  {
  }

  /** Running a frame ends the copy in progress and keeps the queue in step. */
  lemma RanKeepsSettled(s: SyncState)
    requires Settled(s)
    ensures Settled(Ran(s)) && !Ran(s).scrolling
  {
  }

  lemma RanKeepsInStep(s: SyncState)
    requires InStep(s)
    ensures InStep(Ran(s)) && !Ran(s).scrolling && Ran(s).pending == []
  {
  }

  /** A frame scheduled by one source, run twice over, leaves what the second run
      wrote. */
  lemma WrittenTwice(p: Panes, source: Option<Pane>, a: int, b: int)
    ensures Written(Written(p, source, a), source, b) == Written(p, source, b)
  {
  }

  /** Frames all scheduled by one source leave the panes as the newest of them alone
      would. */
  lemma {:induction false} RunAllFromOneSource(p: Panes, fs: seq<Frame>, source: Option<Pane>)
    requires fs != []
    requires forall i :: 0 <= i < |fs| ==> fs[i].source == source
    ensures RunAll(p, fs) == Written(p, source, fs[|fs| - 1].scrollTop)
  {
    var init := fs[..|fs| - 1];
    if init != [] {
      RunAllFromOneSource(p, init, source);
      WrittenTwice(p, source, init[|init| - 1].scrollTop, fs[|fs| - 1].scrollTop);
    }
  }

  /** A scroll that is accepted leaves, once its frame runs, all three panes at the
      scrolled offset. */
  lemma ScrollThenFrameAligns(s: SyncState, which: Pane, top: int)
    requires Settled(s) && Accepts(s, Some(which))
    ensures Ran(AfterScroll(s, which, top)).panes == Panes(top, top, top)
    ensures !Ran(AfterScroll(s, which, top)).scrolling
  {
    var m := s.(panes := Moved(s.panes, which, top));
    SyncedMeaning(m, Some(which), top);
    var f := Frame(s.nextId, Some(which), top);
    assert [f][..0] == [];
    assert RunAll(m.panes, [f]) == Written(m.panes, Some(which), top);
  }

  /** The handler as written also aligns the panes once the frame runs: the frames it
      failed to cancel come from the same source and are overwritten by the newest. */
  lemma AsWrittenFrameAligns(s: SyncState, which: Pane, top: int)
    requires InStep(s) && Accepts(s, Some(which))
    ensures Ran(AfterScrollAsWritten(s, which, top)).panes == Panes(top, top, top)
    ensures !Ran(AfterScrollAsWritten(s, which, top)).scrolling
  {
    var m := s.(panes := Moved(s.panes, which, top));
    SyncedAsWrittenMeaning(m, Some(which), top);
    var t := SyncedAsWritten(m, Some(which), top);
    RunAllFromOneSource(m.panes, t.pending, Some(which));
  }

  /** The corrected handler's frame writes the accepted event's offset. */
  lemma CorrectedFrameWrites(s: SyncState, source: Option<Pane>, top: int)
    requires Settled(s) && Accepts(s, source)
    ensures Ran(Synced(s, source, top)).panes == Written(s.panes, source, top)
  {
    SyncedMeaning(s, source, top);
    var f := Frame(s.nextId, source, top);
    assert [f][..0] == [];
    assert RunAll(s.panes, [f]) == Written(s.panes, source, top);
  }

  /** The handler as written gives the same: the frames it left queued come from the
      same source and the newest, the accepted event's, runs last. */
  lemma AsWrittenFrameWrites(s: SyncState, source: Option<Pane>, top: int)
    requires InStep(s) && Accepts(s, source)
    ensures Ran(SyncedAsWritten(s, source, top)).panes == Written(s.panes, source, top)
  {
    SyncedAsWrittenMeaning(s, source, top);
    RunAllFromOneSource(s.panes, SyncedAsWritten(s, source, top).pending, source);
  }

  /** The missing cancel is not visible in the panes: from a settled state, the handler
      as written and the corrected one leave the same offsets once the frame runs. */
  lemma AsWrittenAgreesAfterFrame(s: SyncState, source: Option<Pane>, top: int)
    requires Settled(s)
    ensures Ran(SyncedAsWritten(s, source, top)).panes == Ran(Synced(s, source, top)).panes
  {
    if Accepts(s, source) {
      SettledInStep(s);
      AsWrittenFrameWrites(s, source, top);
      CorrectedFrameWrites(s, source, top);
    }
  }

  /** As written, two scrolls of the left pane before a frame leave two frames queued:
      the first, whose offset is already stale, is not cancelled and still runs. */
  lemma AsWrittenKeepsStaleFrame()
    ensures var s2 := AfterScrollAsWritten(AfterScrollAsWritten(Initial(Panes(0, 0, 0)), Left, 10), Left, 20);
      s2.pending == [Frame(1, Some(Left), 10), Frame(2, Some(Left), 20)] && !Settled(s2) &&
      Ran(s2).panes == Panes(20, 20, 20)
  {
    var s1 := AfterScrollAsWritten(Initial(Panes(0, 0, 0)), Left, 10);
    assert s1.pending == [Frame(1, Some(Left), 10)] && s1.scrolling;
    var s2 := AfterScrollAsWritten(s1, Left, 20);
    assert s2.pending == [Frame(1, Some(Left), 10), Frame(2, Some(Left), 20)];
    assert s2.pending[..1] == [Frame(1, Some(Left), 10)];
    assert s2.pending[..1][..0] == [];
  }

  /** With the cancel applied to the earlier frame, the same events leave one frame
      queued, the newest. */
  lemma CorrectedKeepsOneFrame()
    ensures var s2 := AfterScroll(AfterScroll(Initial(Panes(0, 0, 0)), Left, 10), Left, 20);
      s2.pending == [Frame(2, Some(Left), 20)] && Settled(s2) &&
      Ran(s2).panes == Panes(20, 20, 20)
  {
    var s0 := Initial(Panes(0, 0, 0));
    InitialSettled(s0.panes);
    var s1 := AfterScroll(s0, Left, 10);
    SyncedMeaning(s0.(panes := Moved(s0.panes, Left, 10)), Some(Left), 10);
    SyncedKeepsSettled(s0.(panes := Moved(s0.panes, Left, 10)), Some(Left), 10);
    var s2 := AfterScroll(s1, Left, 20);
    SyncedMeaning(s1.(panes := Moved(s1.panes, Left, 20)), Some(Left), 20);
    SyncedKeepsSettled(s1.(panes := Moved(s1.panes, Left, 20)), Some(Left), 20);
    ScrollThenFrameAligns(s1, Left, 20);
  }

  /** The scroll-sync state of one viewer. */
  class Viewer {
    var source: Option<Pane>
    var scrolling: bool
    var frameId: Option<nat>
    /** The browser's queue of frames scheduled by this viewer, oldest first. */
    var pending: seq<Frame>
    var nextId: nat
    var leftTop: int
    var rightTop: int
    var connectorTop: int

    function State(): SyncState
      reads this
    {
      SyncState(source, scrolling, frameId, pending, nextId, Panes(leftTop, rightTop, connectorTop))
    }

    constructor(p: Panes)
      ensures State() == Initial(p) && Settled(State())
    {
      source := None;
      scrolling := false;
      frameId := None;
      pending := [];
      nextId := 1;
      leftTop, rightTop, connectorTop := p.left, p.right, p.connector;
    }

    /** `requestAnimationFrame`: queues a frame and returns its id. */
    method RequestFrame(src: Option<Pane>, top: int) returns (id: nat)
      modifies this
      ensures id == old(nextId) && nextId == old(nextId) + 1
      ensures pending == old(pending) + [Frame(id, src, top)]
      ensures source == old(source) && scrolling == old(scrolling) && frameId == old(frameId)
      ensures leftTop == old(leftTop) && rightTop == old(rightTop) && connectorTop == old(connectorTop)
    {
      id := nextId;
      nextId := nextId + 1;
      pending := pending + [Frame(id, src, top)];
    }

    /** `cancelAnimationFrame`. */
    method CancelFrame(id: Option<nat>)
      modifies this
      ensures pending == Cancel(old(pending), id)
      ensures source == old(source) && scrolling == old(scrolling) && frameId == old(frameId) && nextId == old(nextId)
      ensures leftTop == old(leftTop) && rightTop == old(rightTop) && connectorTop == old(connectorTop)
    {
      pending := Cancel(pending, id);
    }

    /** The scroll handler as written. */
    method SyncScrollAsWritten(src: Option<Pane>, top: int)
      modifies this
      ensures State() == SyncedAsWritten(old(State()), src, top)
    {
      if scrolling && source != src {
        return;
      }
      source, scrolling, frameId := src, true, None;
      CancelFrame(frameId);
      var id := RequestFrame(src, top);
      frameId := Some(id);
    }

    /** The scroll handler, cancelling the frame scheduled before. */
    method SyncScroll(src: Option<Pane>, top: int)
      modifies this
      ensures State() == Synced(old(State()), src, top)
      ensures old(Settled(State())) ==> Settled(State())
    {
      SyncedKeepsSettledIf(State(), src, top);
      if scrolling && source != src {
        return;
      }
      CancelFrame(frameId);
      source, scrolling, frameId := src, true, None;
      var id := RequestFrame(src, top);
      frameId := Some(id);
    }

    /** The user scrolls one pane, which then reports its new offset to the handler as
        written. */
    method Scrolled(which: Pane, top: int)
      modifies this
      ensures State() == AfterScrollAsWritten(old(State()), which, top)
    {
      match which {
        case Left => leftTop := top;
        case Right => rightTop := top;
        case Connector => connectorTop := top;
      }
      SyncScrollAsWritten(Some(which), top);
    }

    /** A window resize syncs every pane to the left pane's offset, through the handler
        as written. */
    method Resize()
      modifies this
      ensures State() == SyncedAsWritten(old(State()), None, old(leftTop))
    {
      SyncScrollAsWritten(None, leftTop);
    }

    /** `Scrolled` with the corrected handler. */
    method ScrolledCorrected(which: Pane, top: int)
      modifies this
      ensures State() == AfterScroll(old(State()), which, top)
    {
      match which {
        case Left => leftTop := top;
        case Right => rightTop := top;
        case Connector => connectorTop := top;
      }
      SyncScroll(Some(which), top);
    }

    /** `Resize` with the corrected handler. */
    method ResizeCorrected()
      modifies this
      ensures State() == Synced(old(State()), None, old(leftTop))
    {
      SyncScroll(None, leftTop);
    }

    /** The browser's next frame: it takes the whole queue and runs each frame in turn;
        each writes the panes other than its source and clears `scrolling`. */
    method RunFrame()
      modifies this
      ensures State() == Ran(old(State()))
    {
      if pending == [] {
        return;
      }
      var queued := pending;
      pending := [];
      var i := 0;
      while i < |queued|
        invariant 0 <= i <= |queued|
        invariant Panes(leftTop, rightTop, connectorTop) == RunAll(old(State()).panes, queued[..i])
        invariant pending == [] && queued == old(pending)
        invariant source == old(source) && frameId == old(frameId) && nextId == old(nextId)
        invariant scrolling == (if i == 0 then old(scrolling) else false)
      {
        var f := queued[i];
        if f.source != Some(Left) {
          leftTop := f.scrollTop;
        }
        if f.source != Some(Right) {
          rightTop := f.scrollTop;
        }
        if f.source != Some(Connector) {
          connectorTop := f.scrollTop;
        }
        scrolling := false;
        assert queued[..i + 1][..i] == queued[..i];
        i := i + 1;
      }
      assert queued[..|queued|] == queued;
    }
  }

  lemma SyncedKeepsSettledIf(s: SyncState, source: Option<Pane>, top: int)
    ensures Settled(s) ==> Settled(Synced(s, source, top))
  {
    if Settled(s) {
      SyncedKeepsSettled(s, source, top);
    }
  }

  /** Height of the scrolling content: tall enough for the longer side, at least 100
      pixels. */
  function ContentHeight(leftLines: nat, rightLines: nat): (h: nat)
  {
    var l, r := leftLines * LineHeight, rightLines * LineHeight;
    if l >= r && l >= 100 then l else if r >= 100 then r else 100
  }

  lemma ContentHeightIsMax(leftLines: nat, rightLines: nat)
    ensures var h := ContentHeight(leftLines, rightLines);
      h >= 100 && h >= 24 * leftLines && h >= 24 * rightLines &&
      (h == 100 || h == 24 * leftLines || h == 24 * rightLines)
  {
  }

  /** The highlighter names for known extensions. */
  const Languages: map<string, string> := map[
    "js" := "javascript", "jsx" := "jsx", "ts" := "typescript", "tsx" := "tsx",
    "py" := "python", "rb" := "ruby", "java" := "java", "go" := "go", "c" := "c",
    "cpp" := "cpp", "cs" := "csharp", "html" := "html", "css" := "css", "scss" := "scss",
    "json" := "json", "md" := "markdown", "rust" := "rust", "rs" := "rust", "php" := "php",
    "sh" := "bash", "yaml" := "yaml", "yml" := "yaml", "xml" := "xml", "sql" := "sql",
    "toml" := "toml", "dart" := "dart", "kt" := "kotlin", "swift" := "swift"]

  /** The highlighter language for a file extension: none without an extension, the
      table's name for a known one (in any case), and the extension itself in lower case
      otherwise. */
  function LanguageOf(extension: Option<string>): Option<string>
  {
    if !Truthy(extension) then None
    else
      var key := Lower(extension.value);
      if key in Languages then Some(Languages[key]) else Some(key)
  }

  /** The lookup ignores case: an extension and its lower-case form get the same
      language. */
  lemma LanguageIgnoresCase(extension: string)
    ensures LanguageOf(Some(extension)) == LanguageOf(Some(Lower(extension)))
  {
    LowerIdempotent(extension);
  }

  /** Only a missing or empty extension has no language; a present one always gets a
      non-empty name. */
  lemma LanguageCases(extension: Option<string>)
    ensures LanguageOf(extension).None? <==> !Truthy(extension)
    ensures LanguageOf(extension).Some? ==> LanguageOf(extension).value != []
    ensures Truthy(extension) && Lower(extension.value) !in Languages ==>
      LanguageOf(extension) == Some(Lower(extension.value))
  {
    if Truthy(extension) {
      var key := Lower(extension.value);
      if key in Languages {
        assert forall k :: k in Languages ==> Languages[k] != [];
      }
    }
  }
}
