/** The comparison history kept by the browser: the recent comparisons, most recent
    first, at most 20 and at most one per pair of files, and the starred comparisons,
    at most one per id. Updates are ignored while the page is not mounted. Local
    storage, notifications and the clock are not part of the model: the current time
    is a parameter. */
module History {
  import opened Common

  /** Line counts attached to a comparison; `same` is the count of unchanged lines. */
  datatype Stats = Stats(added: nat, removed: nat, same: nat)

  /** A stored comparison. A file may be missing; two missing files count as equal. */
  datatype Comparison = Comparison(
    id: string,
    sourceFile: Option<string>,
    targetFile: Option<string>,
    stats: Stats,
    date: string)

  /** What a caller passes to `AddComparison`: the id and the stats may be left out. */
  datatype Request = Request(
    id: Option<string>,
    sourceFile: Option<string>,
    targetFile: Option<string>,
    stats: Option<Stats>)

  /** The most recent comparisons kept. */
  const MaxRecent: nat := 20

  /** The entry stored for a request made at `nowMs` (milliseconds since the epoch,
      whose ISO text is `nowIso`): a missing or empty id becomes the time's decimal text,
      missing stats become zeros. */
  function NewEntry(c: Request, nowMs: nat, nowIso: string): Comparison
  {
    Comparison(
      if Truthy(c.id) then c.id.value else NatToString(nowMs),
      c.sourceFile,
      c.targetFile,
      if c.stats.Some? then c.stats.value else Stats(0, 0, 0),
      nowIso)
  }

  lemma NewEntryDefaults(c: Request, nowMs: nat, nowIso: string)
    ensures !Truthy(c.id) ==> DigitsValue(NewEntry(c, nowMs, nowIso).id) == nowMs
    ensures Truthy(c.id) ==> NewEntry(c, nowMs, nowIso).id == c.id.value
    ensures c.stats.None? ==> NewEntry(c, nowMs, nowIso).stats == Stats(0, 0, 0)
    ensures NewEntry(c, nowMs, nowIso).date == nowIso
  {
    if !Truthy(c.id) {
      NatToStringRoundTrip(nowMs);
    }
  }

  predicate SamePair(a: Comparison, b: Comparison)
  {
    a.sourceFile == b.sourceFile && a.targetFile == b.targetFile
  }

  /** The recent list after adding `e`: `e` first, then the older entries of other
      pairs, cut to 20. */
  function AddToRecent(prev: seq<Comparison>, e: Comparison): seq<Comparison>
  {
    var filtered := Filter(prev, (c: Comparison) => !SamePair(c, e));
    var all := [e] + filtered;
    if |all| <= MaxRecent then all else all[..MaxRecent]
  }

  /** No two entries of the list are for the same pair of files. */
  predicate UniquePairs(s: seq<Comparison>)
  {
    forall i, j :: 0 <= i < j < |s| ==> !SamePair(s[i], s[j])
  }

  /** No two entries of the list share an id. */
  predicate UniqueIds(s: seq<Comparison>)
  {
    forall i, j :: 0 <= i < j < |s| ==> s[i].id != s[j].id
  }

  /** The new entry comes first, at most 20 entries remain, no other entry is for the
      same pair, and the others are older entries in their old order. */
  lemma AddToRecentShape(prev: seq<Comparison>, e: Comparison)
    ensures var r := AddToRecent(prev, e);
      |r| >= 1 && r[0] == e && |r| <= MaxRecent &&
      (forall i :: 1 <= i < |r| ==> !SamePair(r[i], e) && r[i] in prev) &&
      IsSubsequence(r[1..], prev)
  {
    var p := (c: Comparison) => !SamePair(c, e);
    var filtered := Filter(prev, p);
    FilterMembers(prev, p);
    FilterIsSubsequence(prev, p);
    var r := AddToRecent(prev, e);
    assert r[0] == e;
    forall i | 1 <= i < |r|
      ensures !SamePair(r[i], e) && r[i] in prev
    {
      assert r[i] == filtered[i - 1];
      assert filtered[i - 1] in filtered;
    }
    if |[e] + filtered| > MaxRecent {
      assert r[1..] == filtered[..MaxRecent - 1];
      PrefixSubsequence(filtered, MaxRecent - 1, prev);
    } else {
      assert r[1..] == filtered;
    }
  }

  /** A prefix of a subsequence is a subsequence. */
  lemma {:induction false} PrefixSubsequence<T>(r: seq<T>, n: nat, s: seq<T>)
    requires n <= |r| && IsSubsequence(r, s)
    ensures IsSubsequence(r[..n], s)
    decreases |s|
  {
    if n > 0 && s != [] {
      if r[0] == s[0] {
        PrefixSubsequence(r[1..], n - 1, s[1..]);
        assert r[..n][1..] == r[1..][..n - 1];
      } else {
        PrefixSubsequence(r, n, s[1..]);
      }
    }
  }

  /** When nothing had to be cut, every older entry of another pair is kept. */
  lemma AddToRecentKeeps(prev: seq<Comparison>, e: Comparison, c: Comparison)
    requires |prev| < MaxRecent && c in prev && !SamePair(c, e)
    ensures c in AddToRecent(prev, e)
  {
    var p := (x: Comparison) => !SamePair(x, e);
    FilterMembers(prev, p);
  }

  /** Adding keeps every pair at most once. */
  lemma AddKeepsPairsUnique(prev: seq<Comparison>, e: Comparison)
    requires UniquePairs(prev)
    ensures UniquePairs(AddToRecent(prev, e))
  {
    var p := (c: Comparison) => !SamePair(c, e);
    var filtered := Filter(prev, p);
    FilterKeepsUnique(prev, p);
    AddToRecentShape(prev, e);
    var r := AddToRecent(prev, e);
    forall i, j | 0 <= i < j < |r|
      ensures !SamePair(r[i], r[j])
    {
      if i > 0 {
        assert r[i] == filtered[i - 1] && r[j] == filtered[j - 1];
      }
    }
  }

  lemma {:induction false} FilterKeepsUnique(s: seq<Comparison>, p: Comparison -> bool)
    requires UniquePairs(s)
    ensures UniquePairs(Filter(s, p))
  {
    if s != [] {
      FilterKeepsUnique(s[1..], p);
      FilterMembers(s[1..], p);
      assert forall x :: x in s[1..] ==> !SamePair(s[0], x);
    }
  }

  /** Filtering by a condition that every element meets keeps the whole list. */
  lemma {:induction false} FilterAll<T(!new)>(s: seq<T>, p: T -> bool)
    requires forall i :: 0 <= i < |s| ==> p(s[i])
    ensures Filter(s, p) == s
  {
    if s != [] {
      FilterAll(s[1..], p);
    }
  }

  /** Some entry has the id. */
  predicate HasId(s: seq<Comparison>, id: string)
  {
    exists i :: 0 <= i < |s| && s[i].id == id
  }

  /** The list without the entries that have the id. */
  function WithoutId(s: seq<Comparison>, id: string): seq<Comparison>
  {
    Filter(s, (c: Comparison) => c.id != id)
  }

  /** Deleting removes every entry with the id and keeps the others in order. */
  lemma WithoutIdMeaning(s: seq<Comparison>, id: string)
    ensures !HasId(WithoutId(s, id), id)
    ensures forall c :: c in WithoutId(s, id) <==> c in s && c.id != id
    ensures IsSubsequence(WithoutId(s, id), s)
  {
    var p := (c: Comparison) => c.id != id;
    FilterMembers(s, p);
    FilterIsSubsequence(s, p);
    var r := WithoutId(s, id);
    forall i | 0 <= i < |r|
      ensures r[i].id != id
    {
      assert r[i] in r;
    }
  }

  /** The starred list after starring or unstarring `c`: unstarring removes every entry
      with its id, starring puts it first. */
  function Toggled(starred: seq<Comparison>, c: Comparison): seq<Comparison>
  {
    if HasId(starred, c.id) then WithoutId(starred, c.id) else [c] + starred
  }

  /** Toggling flips whether the id is starred. */
  lemma ToggleFlips(starred: seq<Comparison>, c: Comparison)
    ensures HasId(Toggled(starred, c), c.id) <==> !HasId(starred, c.id)
  {
    if HasId(starred, c.id) {
      WithoutIdMeaning(starred, c.id);
    } else {
      assert Toggled(starred, c)[0].id == c.id;
    }
  }

  /** Starring and then unstarring the same comparison restores the starred list. */
  lemma ToggleTwiceRestores(starred: seq<Comparison>, c: Comparison)
    requires !HasId(starred, c.id)
    ensures Toggled(Toggled(starred, c), c) == starred
  {
    var once := [c] + starred;
    assert once[0].id == c.id;
    assert Filter(once, (x: Comparison) => x.id != c.id) == Filter(starred, (x: Comparison) => x.id != c.id);
    FilterAll(starred, (x: Comparison) => x.id != c.id);
  }

  /** Toggling keeps ids unique in the starred list. */
  lemma ToggleKeepsIdsUnique(starred: seq<Comparison>, c: Comparison)
    requires UniqueIds(starred)
    ensures UniqueIds(Toggled(starred, c))
  {
    if HasId(starred, c.id) {
      FilterKeepsIds(starred, (x: Comparison) => x.id != c.id);
    } else {
      var r := [c] + starred;
      forall i, j | 0 <= i < j < |r|
        ensures r[i].id != r[j].id
      {
        if i == 0 {
          assert r[j] == starred[j - 1];
        }
      }
    }
  }

  lemma {:induction false} FilterKeepsIds(s: seq<Comparison>, p: Comparison -> bool)
    requires UniqueIds(s)
    ensures UniqueIds(Filter(s, p))
  {
    if s != [] {
      FilterKeepsIds(s[1..], p);
      FilterMembers(s[1..], p);
      assert forall x :: x in s[1..] ==> s[0].id != x.id;
    }
  }

  /** Deleting keeps both invariants. */
  lemma DeleteKeepsInvariants(recent: seq<Comparison>, starred: seq<Comparison>, id: string)
    requires UniquePairs(recent) && |recent| <= MaxRecent && UniqueIds(starred)
    ensures UniquePairs(WithoutId(recent, id)) && |WithoutId(recent, id)| <= MaxRecent
    ensures UniqueIds(WithoutId(starred, id))
  {
    FilterKeepsUnique(recent, (c: Comparison) => c.id != id);
    FilterKeepsIds(starred, (c: Comparison) => c.id != id);
  }

  class ComparisonHistory {
    var recent: seq<Comparison>
    var starred: seq<Comparison>
    var mounted: bool

    predicate Valid()
      reads this
    {
      |recent| <= MaxRecent && UniquePairs(recent) && UniqueIds(starred)
    }

    /** Both lists start empty, before the page is mounted. */
    constructor()
      ensures Valid() && recent == [] && starred == [] && !mounted
    {
      recent := [];
      starred := [];
      mounted := false;
    }

    method Mount()
      modifies this
      ensures mounted && recent == old(recent) && starred == old(starred)
    {
      mounted := true;
    }

    method Unmount()
      modifies this
      ensures !mounted && recent == old(recent) && starred == old(starred)
    {
      mounted := false;
    }

    method AddComparison(c: Request, nowMs: nat, nowIso: string)
      requires Valid()
      modifies this
      ensures Valid() && mounted == old(mounted) && starred == old(starred)
      ensures recent == if old(mounted) then AddToRecent(old(recent), NewEntry(c, nowMs, nowIso)) else old(recent)
    {
      if !mounted {
        return;
      }
      var e := NewEntry(c, nowMs, nowIso);
      AddToRecentShape(recent, e);
      AddKeepsPairsUnique(recent, e);
      recent := AddToRecent(recent, e);
    }

    method DeleteComparison(id: string)
      requires Valid()
      modifies this
      ensures Valid() && mounted == old(mounted)
      ensures recent == if old(mounted) then WithoutId(old(recent), id) else old(recent)
      ensures starred == if old(mounted) then WithoutId(old(starred), id) else old(starred)
    {
      if !mounted {
        return;
      }
      DeleteKeepsInvariants(recent, starred, id);
      recent := WithoutId(recent, id);
      starred := WithoutId(starred, id);
    }

    method ToggleStarred(c: Comparison)
      requires Valid()
      modifies this
      ensures Valid() && mounted == old(mounted) && recent == old(recent)
      ensures starred == if old(mounted) then Toggled(old(starred), c) else old(starred)
    {
      if !mounted {
        return;
      }
      ToggleKeepsIdsUnique(starred, c);
      var isCurrentlyStarred := exists i :: 0 <= i < |starred| && starred[i].id == c.id;
      if isCurrentlyStarred {
        starred := WithoutId(starred, c.id);
      } else {
        starred := [c] + starred;
      }
    }

    function IsStarred(id: string): (r: bool)
      reads this
    {
      HasId(starred, id)
    }
  }

  /** The file name shown for a path: the text after the last '/', or "unknown file"
      when the path is missing or empty. */
  function GetFileName(path: Option<string>): string
  {
    if !Truthy(path) then "unknown file" else AfterLast(path.value, '/')
  }

  /** A present path's name is its last '/'-separated piece: a suffix with no '/',
      preceded by '/' unless it is the whole path. */
  lemma GetFileNameIsLastPiece(path: Option<string>)
    requires Truthy(path)
    ensures var n := GetFileName(path); var p := path.value;
      n == Split(p, '/')[|Split(p, '/')| - 1] &&
      '/' !in n && |n| <= |p| && p[|p| - |n|..] == n && (|n| < |p| ==> p[|p| - |n| - 1] == '/')
  {
    SplitLastIsAfterLast(path.value, '/');
  }

  /** "s" after a count other than one. */
  function Plural(n: int): string { if n > 1 then "s" else "" }

  /** The age of a comparison as shown in the history, from the milliseconds elapsed
      since it was saved (none when its date cannot be read) and the date in the
      browser's locale format. Minutes, hours and days are rounded down. */
  function FormatDate(elapsedMs: Option<int>, localeDate: string): string
  {
    if elapsedMs.None? then localeDate
    else
      var mins := elapsedMs.value / 60000;
      var hours := mins / 60;
      var days := hours / 24;
      if mins < 1 then "Just now"
      else if mins < 60 then NatToString(mins) + " min ago"
      else if hours < 24 then NatToString(hours) + " hour" + Plural(hours) + " ago"
      else if days < 7 then NatToString(days) + " day" + Plural(days) + " ago"
      else localeDate
  }

  /** Whole hours are whole minutes divided by 60, whole days whole hours divided by 24. */
  lemma UnitsCompose(ms: int)
    ensures ms / 60000 / 60 == ms / 3600000
    ensures ms / 3600000 / 24 == ms / 86400000
  {
    var m := ms / 60000;
    var h := m / 60;
    assert ms == 3600000 * h + (60000 * (m % 60) + ms % 60000);
    assert 0 <= 60000 * (m % 60) + ms % 60000 < 3600000;
    var d := ms / 3600000;
    assert ms == 86400000 * (d / 24) + (3600000 * (d % 24) + ms % 3600000);
    assert 0 <= 3600000 * (d % 24) + ms % 3600000 < 86400000;
  }

  /** The bands of `FormatDate`, in milliseconds. */
  lemma FormatDateBands(ms: int, localeDate: string)
    ensures ms < 60000 ==> FormatDate(Some(ms), localeDate) == "Just now"
    ensures 60000 <= ms < 3600000 ==> FormatDate(Some(ms), localeDate) == NatToString(ms / 60000) + " min ago"
    ensures 3600000 <= ms < 7200000 ==> FormatDate(Some(ms), localeDate) == "1 hour ago"
    ensures 7200000 <= ms < 86400000 ==> FormatDate(Some(ms), localeDate) == NatToString(ms / 3600000) + " hours ago"
    ensures 86400000 <= ms < 172800000 ==> FormatDate(Some(ms), localeDate) == "1 day ago"
    ensures 172800000 <= ms < 604800000 ==> FormatDate(Some(ms), localeDate) == NatToString(ms / 86400000) + " days ago"
    ensures 604800000 <= ms ==> FormatDate(Some(ms), localeDate) == localeDate
  {
    UnitsCompose(ms);
    var m, h, d := ms / 60000, ms / 3600000, ms / 86400000;
    if ms < 60000 {
      assert m < 1;
    } else if ms < 3600000 {
      assert 1 <= m < 60;
    } else if ms < 86400000 {
      assert 60 <= m && 1 <= h < 24;
      if ms < 7200000 {
        assert h == 1;
      }
    } else if ms < 604800000 {
      assert 24 <= h && 1 <= d < 7;
      if ms < 172800000 {
        assert d == 1;
      }
    } else {
      assert 24 <= h && 7 <= d;
    }
  }
}
