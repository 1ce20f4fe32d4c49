# cursed-diff, modelled in Dafny

cursed-diff compares two folders, "A" and "B", and shows the differences side by side.
A small Rust server (`cli/`) scans both folders and matches their files by relative path.
It labels each file baseline, added, removed or modified, and serves the listings and file contents over HTTP.
A React front end (`web_app/`) does the rest. It builds a file tree per folder with change counts, runs a line diff between two files and turns the resulting hunks into two numbered panes with a change map and connectors. It keeps the three scrolling panes together, highlights a line and its partner on hover, and keeps a recent and starred comparison history.

This project models that core as Dafny modules, one per source file or tightly related pair of files:

| module | file | models |
|---|---|---|
| `Common` | common.dfy | JavaScript-style `split`/`join`/`pop`, ASCII lower-casing, decimal rendering of a timestamp, filtering |
| `Hunks` | hunks.dfy | diff hunks, the line split of a hunk value (drop one trailing empty piece), per-hunk line counts |
| `DiffUtils` | diff_utils.dfy | `processDiff`, `processDiffForDisplay`, `calculateDiffStats`, `getLanguageFromExtension` |
| `Alignment` | alignment.dfy | `processChanges` in the diff page (panes, counts, connectors, sort), display name, extension, file index, the empty-result rule |
| `ScannedFiles` | scanned_file.dfy | `ComparsionResult` and the `ScanedFile` state methods |
| `FileStores` | file_store.dfy | `FileStore::compare_files` |
| `Api` | api.dfy | the label strings of the listings and the bounds and contents rules of the contents handlers |
| `FileTree` | file_tree.dfy | `convertFilesToTreeFormat`, the tree counters, the changes summary, `toggleExpanded`, the click route |
| `History` | history.dfy | `useComparisonHistory`: add, delete, star, `isStarred`, `getFileName`, `formatDate` |
| `ScrollSync` | scroll_sync.dfy | the `syncScroll` guard and animation-frame state machine, resize, content height, the viewer's extension table |
| `DiffHooks` | hooks.dfy | the two diff-viewer hooks: file status, hover lookup, mouse leave, the recompute guards, the stats reduction |

Code that works by changing state is modelled as imperative Dafny:
- `ScanedFile` and `FileStore` are classes whose methods update fields in place.
- Both `processDiff` loops and `processChanges` are methods with loop invariants.
- The history hook, the scroll state and the two diff hooks are classes.

Each such method is proved against a function over values:
- `Layout` for `processDiff`;
- `ResultA`/`ResultB` for `compare_files`;
- `AddToRecent`, `WithoutId` and `Toggled` for the history;
- `SyncedAsWritten`, `AfterScrollAsWritten` and `Ran` for scrolling, with `Synced` and `AfterScroll` for the corrected handler.

Lemmas then state what those functions mean. Pure code stays as functions: the tree builder, the counters, the extension tables and `formatDate`.

Inputs the source takes from the outside world are parameters:
- The text of a file on disk is a map `disk` from full path to contents. A path missing from it is a failed read.
- The line diff is a function parameter `diffLines`, or its hunk list is the input.
- The current time is `nowMs`/`nowIso` for a new history entry and an elapsed-milliseconds value for `formatDate`.
- `encodeURIComponent` and `decodeURIComponent` are function parameters `encode`/`decode`.

A hunk of the diff library is `Hunk(value, kind)`.
The array that `processDiff` receives is `Option<seq<Part>>`:
- `None` stands for a missing or non-array input.
- The part `Malformed` stands for a null part or a part whose value is not a string.

JavaScript's `split` is modelled exactly: splitting `""` gives `[""]`.

## Model

| member | source | states |
|---|---|---|
| Common.SplitLength | web_app/src/components/diff-viewer/diffUtils.js:63 | `split` yields one more piece than there are separators |
| Common.SplitPiecesLackSep | web_app/src/components/diff-viewer/diffUtils.js:63 | no piece of a split contains the separator |
| Common.JoinSplit | web_app/src/components/diff-viewer/diffUtils.js:151-152 | joining the pieces of a split with the same separator gives back the text |
| Common.SplitLastIsAfterLast | web_app/src/hooks/useComparisonHistory.js:137 | the last piece of `split('/')` is the text after the last '/' (or the whole text when there is none) |
| Common.LowerIdempotent | web_app/src/components/diff-viewer/diffUtils.js:245 | lower-casing twice is lower-casing once |
| Common.NatToStringRoundTrip | web_app/src/hooks/useComparisonHistory.js:49 | the decimal rendering of a timestamp reads back as the same number |
| Common.FilterMembers | web_app/src/hooks/useComparisonHistory.js:59-62 | an element survives a filter exactly when it was present and satisfies the predicate |
| Common.FilterIsSubsequence | web_app/src/hooks/useComparisonHistory.js:86-87 | filtering keeps the surviving elements in their original order |
| Hunks.SplitLinesLackNewline | web_app/src/components/diff-viewer/diffUtils.js:63-68 | no emitted line of a hunk contains '\n' |
| Hunks.PopsIffTrailingNewline | web_app/src/components/diff-viewer/diffUtils.js:66-68 | the last piece is dropped exactly when the value ends with '\n' |
| Hunks.NoLinesIffEmpty | web_app/src/pages/DiffView.jsx:68-72 | a hunk yields no lines exactly when its value is empty |
| Hunks.SplitLinesRoundTrip | web_app/src/pages/DiffView.jsx:68-72 | for a non-empty value, the lines joined with '\n', plus the dropped '\n' when there was one, give back the value |
| Hunks.StatLines | web_app/src/components/diff-viewer/diffUtils.js:170 | a hunk always counts for at least one line in the statistics |
| Hunks.StatLinesCountsNewlines | web_app/src/components/diff-viewer/diffUtils.js:170 | the statistic of a hunk is its number of '\n', or 1 when it has none |
| Hunks.StatLinesVersusEmitted | web_app/src/components/diff-viewer/diffUtils.js:63-68 | the statistic (line 170) equals the number of emitted lines when the value ends with '\n'; an empty value counts 1 but emits nothing; otherwise the statistic is one less than the emitted lines, or 1 for a single line |
| Hunks.HunkEntries | web_app/src/components/diff-viewer/diffUtils.js:71-72 | a hunk contributes one entry per emitted line |
| Hunks.NoEntriesIffAllEmpty | web_app/src/components/diff-viewer/diffUtils.js:120 | a diff produces no lines exactly when every hunk value is empty |
| Hunks.CountHunkEntries | web_app/src/components/diff-viewer/diffUtils.js:74-107 | all lines of a hunk carry that hunk's kind |
| Hunks.EntriesHaveNoNewline | web_app/src/components/diff-viewer/diffUtils.js:71-107 | no line content of a whole diff contains '\n' |
| Hunks.FilterAppend | web_app/src/pages/DiffView.jsx:54-120 | proof helper: selecting a pane's lines distributes over concatenation |
| Hunks.FilterSnoc | web_app/src/pages/DiffView.jsx:54-120 | proof helper: selecting a pane's lines, one more line at a time |
| Hunks.EntriesSnoc | web_app/src/components/diff-viewer/diffUtils.js:56-109 | proof helper: the lines of a diff prefix grow by the lines of the next hunk |
| Hunks.EntriesAppendOne | web_app/src/pages/DiffView.jsx:67-120 | the lines of a diff with one more hunk grow by that hunk's lines |
| Hunks.CountEntriesAppend | web_app/src/pages/DiffView.jsx:62-119 | proof helper: line counts per kind add up over concatenation |
| Hunks.CountUniform | web_app/src/pages/DiffView.jsx:74-119 | a run of lines of one kind counts fully for that kind and zero for the others |
| Hunks.JoinSnoc | web_app/src/components/diff-viewer/diffUtils.js:151-152 | proof helper: joining one more piece appends the separator and the piece |
| DiffUtils.ValidHunks | web_app/src/components/diff-viewer/diffUtils.js:57-60 | skipping malformed parts never produces more hunks than parts |
| DiffUtils.ValidHunksMembers | web_app/src/components/diff-viewer/diffUtils.js:57-60 | a hunk is processed exactly when it appears as a well-formed part |
| DiffUtils.ValidHunksAppend | web_app/src/components/diff-viewer/diffUtils.js:56-60 | proof helper: the well-formed parts of a concatenation are the concatenation of the well-formed parts |
| DiffUtils.ValidHunksSnoc | web_app/src/components/diff-viewer/diffUtils.js:56-60 | proof helper: the loop step over parts: a well-formed part adds its hunk, a malformed part adds nothing |
| DiffUtils.MalformedSkipped | web_app/src/components/diff-viewer/diffUtils.js:57-60 | a malformed part anywhere contributes nothing |
| DiffUtils.LayoutSnoc | web_app/src/components/diff-viewer/diffUtils.js:74-107 | proof helper: laying out one more line is one push step |
| DiffUtils.StepNumbered | web_app/src/components/diff-viewer/diffUtils.js:74-101 | a push step keeps both panes numbered 1..n in push order |
| DiffUtils.StepDescribes | web_app/src/components/diff-viewer/diffUtils.js:81-106 | a push step keeps one change-map entry per line, with null or in-range indices as its kind demands |
| DiffUtils.LayoutNumbered | web_app/src/components/diff-viewer/diffUtils.js:48-101 | the left pane holds exactly the removed and unchanged lines and the right pane the added and unchanged lines, with `number == i+1` |
| DiffUtils.LayoutDescribes | web_app/src/components/diff-viewer/diffUtils.js:71-107 | entry i of the change map describes line i: added → (null, right index), removed → (left index, null), unchanged → both, each index pointing at a pane line with that content |
| DiffUtils.LayoutMeaning | web_app/src/components/diff-viewer/diffUtils.js:71-107 | the numbering and the change-map description together |
| DiffUtils.PushLine | web_app/src/components/diff-viewer/diffUtils.js:74-107 | one push of a line updates the panes, the change map and both counters as the layout of one more line says |
| DiffUtils.Tagged | web_app/src/components/diff-viewer/diffUtils.js:71-72 | every line of a hunk is tagged with the hunk's kind, in order |
| DiffUtils.PushLines | web_app/src/components/diff-viewer/diffUtils.js:71-108 | the inner loop lays out all lines of one hunk |
| DiffUtils.PushHunk | web_app/src/components/diff-viewer/diffUtils.js:62-108 | splitting a hunk and pushing its lines extends the layout by that hunk's lines |
| DiffUtils.PushParts | web_app/src/components/diff-viewer/diffUtils.js:56-109 | the outer loop lays out exactly the lines of the well-formed parts |
| DiffUtils.ProcessDiff | web_app/src/components/diff-viewer/diffUtils.js:31-140 | the method returns the specified result: empty for a missing or empty input, the info fallback when nothing was laid out, the layout otherwise |
| DiffUtils.FallbackIffNoLines | web_app/src/components/diff-viewer/diffUtils.js:120-133 | a non-empty input gives the fallback (one info line per side, change map `[{info,0,0}]`) exactly when every well-formed hunk is empty |
| DiffUtils.IndicesInRange | web_app/src/components/diff-viewer/diffUtils.js:81-131 | for every input, each non-null change-map index is within its pane |
| DiffUtils.Contents | web_app/src/components/diff-viewer/diffUtils.js:151-152 | the contents are the lines' texts, one per line, in order |
| DiffUtils.ProcessDiffForDisplay | web_app/src/components/diff-viewer/diffUtils.js:147-155 | the display result carries the processed diff and both pane texts joined with '\n' |
| DiffUtils.LayoutHasNoNewline | web_app/src/components/diff-viewer/diffUtils.js:71-107 | laid-out lines contain no '\n' |
| DiffUtils.DisplayContentRoundTrip | web_app/src/components/diff-viewer/diffUtils.js:150-153 | an empty pane joins to ''; the fallback panes join to their info texts; otherwise splitting a pane text on '\n' gives back the pane's line contents |
| DiffUtils.HunkStatsSnoc | web_app/src/components/diff-viewer/diffUtils.js:167-181 | proof helper: the reduction step adds one hunk's statistic |
| DiffUtils.CalculateDiffStats | web_app/src/components/diff-viewer/diffUtils.js:162-182 | zeros for a missing or empty input; otherwise the sum over the well-formed parts |
| DiffUtils.BucketAddHunk | web_app/src/components/diff-viewer/diffUtils.js:172-178 | one hunk adds its statistic to exactly one bucket, the one of its kind |
| DiffUtils.StatsAtLeastOnePerHunk | web_app/src/components/diff-viewer/diffUtils.js:170 | the three buckets together count at least one per hunk |
| DiffUtils.BucketZeroIffKindAbsent | web_app/src/components/diff-viewer/diffUtils.js:170-178 | a bucket is zero exactly when no hunk has its kind |
| DiffUtils.StatsMatchLinesWhenTerminated | web_app/src/components/diff-viewer/diffUtils.js:170-178 | when every hunk value ends with '\n', the statistics equal the numbers of lines laid out per kind |
| DiffUtils.LanguageFromExtension | web_app/src/components/diff-viewer/diffUtils.js:189-247 | 'plaintext' for a falsy or unknown extension, otherwise the table's language for the lower-cased extension; never empty |
| DiffUtils.LanguageIgnoresCase | web_app/src/components/diff-viewer/diffUtils.js:245-246 | extensions that differ only in letter case map to the same language |
| Alignment.LastRemoved | web_app/src/pages/DiffView.jsx:127-131 | the index of the last removed left line, or -1 when there is none |
| Alignment.InsertByLines | web_app/src/pages/DiffView.jsx:169 | inserting a connector keeps every element (as a multiset) |
| Alignment.SortedCons | web_app/src/pages/DiffView.jsx:169 | a connector ordered before a sorted list extends it sorted |
| Alignment.InsertKeepsSorted | web_app/src/pages/DiffView.jsx:169 | insertion keeps the connectors sorted by left line, then right line |
| Alignment.SortByLines | web_app/src/pages/DiffView.jsx:169 | the result is sorted by left line, then right line, and is a permutation of the input |
| Alignment.NumberedSnoc | web_app/src/pages/DiffView.jsx:74-119 | proof helper: pushing a line numbered `length+1` keeps the pane numbered 1..n |
| Alignment.CountKindSnoc | web_app/src/pages/DiffView.jsx:62-119 | proof helper: pushing a line increments the count of its kind only |
| Alignment.LastRemovedSnoc | web_app/src/pages/DiffView.jsx:127-131 | proof helper: the loop step of the last-removed scan |
| Alignment.AddedConnectorsSnoc | web_app/src/pages/DiffView.jsx:142-155 | proof helper: the loop step of the added-connector pass |
| Alignment.FilterUniform | web_app/src/pages/DiffView.jsx:74-119 | a run of lines of one kind goes to a pane entirely or not at all |
| Alignment.HunkSides | web_app/src/pages/DiffView.jsx:73-119 | one hunk's lines go to the left pane unless added and to the right pane unless removed |
| Alignment.PushAdded | web_app/src/pages/DiffView.jsx:74-85 | the added branch appends the lines to the right pane, numbered on, and keeps the added counter equal to the added lines |
| Alignment.PushRemoved | web_app/src/pages/DiffView.jsx:86-101 | the removed branch appends the lines to the left pane, numbered on, and keeps the removed counter |
| Alignment.PushUnchanged | web_app/src/pages/DiffView.jsx:102-119 | the unchanged branch appends each line to both panes and keeps all counters |
| Alignment.PushHunk | web_app/src/pages/DiffView.jsx:67-119 | one hunk extends the panes by its lines and keeps the counters equal to the pane contents |
| Alignment.CollectLines | web_app/src/pages/DiffView.jsx:54-120 | the left pane is exactly the removed and unchanged lines and the right pane the added and unchanged lines, numbered from 1, with matching counters |
| Alignment.LinkLines | web_app/src/pages/DiffView.jsx:122-166 | the connectors are the added connectors followed by the unchanged ones up to the shorter pane |
| Alignment.ProcessChanges | web_app/src/pages/DiffView.jsx:54-179 | panes and counters as CollectLines states; the connectors are those links, sorted |
| Alignment.FilterKeepsKind | web_app/src/pages/DiffView.jsx:62-119 | a pane that accepts a kind keeps all lines of that kind |
| Alignment.FilterDropsKind | web_app/src/pages/DiffView.jsx:62-119 | a pane that refuses a kind has none of it |
| Alignment.FilterCounts | web_app/src/pages/DiffView.jsx:62-119 | left holds all removed and unchanged lines and no added line; right holds all added and unchanged lines and no removed line |
| Alignment.CountKindOfNumbered | web_app/src/pages/DiffView.jsx:62-119 | a pane's per-kind count equals the count in the lines it was built from |
| Alignment.PaneSize | web_app/src/pages/DiffView.jsx:62-119 | a pane's length is the sum of its per-kind counts |
| Alignment.ProcessedCounts | web_app/src/pages/DiffView.jsx:171-176 | the returned counts equal the number of lines of each kind; left length = removed + unchanged, right length = added + unchanged |
| Alignment.HunkLinesRoundTrip | web_app/src/pages/DiffView.jsx:68-72 | a hunk's line contents, re-joined with the dropped '\n', give back its value |
| Alignment.AddedConnectorsMeaning | web_app/src/pages/DiffView.jsx:142-155 | with no removed left line there is no added connector; otherwise each added right line yields exactly one, linking the last removed left line to that line |
| Alignment.UnchangedConnectorsMeaning | web_app/src/pages/DiffView.jsx:158-166 | unchanged connectors exist exactly for indices below the shorter pane where both sides are unchanged, with `leftLine == rightLine == i+1` |
| Alignment.NoRemovedConnector | web_app/src/pages/DiffView.jsx:123-140 | no removed connector is ever produced |
| Alignment.DisplayName | web_app/src/pages/DiffView.jsx:14 | 'nonexistent' for a missing path, otherwise the slash-free tail after the last '/' |
| Alignment.FileExtensionOf | web_app/src/pages/DiffView.jsx:42-46 | '' for a missing path or a path without '.', otherwise the lower-cased text after the last '.' |
| Alignment.PageExtension | web_app/src/pages/DiffView.jsx:48-51 | B's extension when it is non-empty, A's otherwise |
| Alignment.FindFileIndex | web_app/src/pages/DiffView.jsx:204-211 | no file for a missing path; a decode error exactly when a present path does not decode (the thrown `URIError`); otherwise the first index whose path equals the decoded path, or no file when no path does |
| Alignment.FirstIndexOf | web_app/src/pages/DiffView.jsx:209 | the first matching index from a starting point, or none when no later path matches |
| Alignment.NoDifferencesIffAllEmpty | web_app/src/pages/DiffView.jsx:282-288 | both panes end up empty exactly when every hunk value is empty |
| ScannedFiles.DisplayRoundTrip | cli/src/file.rs:11-15 | every result's printed variant name identifies it uniquely |
| ScannedFiles.ScannedFile.constructor | cli/src/file.rs:28-47 | a new file has the given paths, name and size, extension '' when absent, no contents and no comparison result |
| ScannedFiles.ScannedFile.ReadContents | cli/src/file.rs:50-54 | a successful read sets the contents; a failed read leaves them as they were; the label is untouched |
| ScannedFiles.ScannedFile.ClearContents | cli/src/file.rs:56-58 | contents become None and nothing else changes |
| ScannedFiles.ScannedFile.SetComparisonResult | cli/src/file.rs:60-62 | the label becomes `Some(r)` and nothing else changes |
| FileStores.PathIndexKeepsLast | cli/src/filestore.rs:73-78 | the index holds exactly the paths of A and maps each to the last position that has it |
| FileStores.Counterpart | cli/src/filestore.rs:89 | the lookup finds an A file with that path exactly when the path occurs in A |
| FileStores.ResultsKeepFiles | cli/src/filestore.rs:71-130 | both lists keep their length and order, and each file keeps its full and relative paths |
| FileStores.LabelOfA | cli/src/filestore.rs:80-129 | an A file ends Removed when its path is absent from B and Baseline otherwise |
| FileStores.LabelOfB | cli/src/filestore.rs:85-115 | a B file ends Added exactly when its path is absent from A, and Baseline or Modified otherwise |
| FileStores.FirstMatchComparesTexts | cli/src/filestore.rs:93-106 | a matched B file is Modified exactly when the two read results differ, so two failed reads give Baseline |
| FileStores.MatchedPairsDropText | cli/src/filestore.rs:108-110 | both files of a matched pair end without contents |
| FileStores.UnmatchedBKeepsText | cli/src/filestore.rs:111-114 | an added B file keeps its contents |
| FileStores.UncomparedAKeepsText | cli/src/filestore.rs:71-129 | an A file that no B file matched keeps its contents |
| FileStores.FileStore.CompareFiles | cli/src/filestore.rs:71-162 | the new A and B lists are the reference results of comparing the old lists |
| FileStores.FileStore.MatchOne | cli/src/filestore.rs:86-114 | one iteration over B labels B file j and clears the matched A file |
| FileStores.ComparePair | cli/src/filestore.rs:93-110 | reads both texts when missing, labels B Modified or Baseline by comparing them, then clears both |
| FileStores.ResultBStep | cli/src/filestore.rs:86-114 | the B loop step towards the reference result |
| FileStores.AfterMatchingStep | cli/src/filestore.rs:91-110 | matching B file j only clears the contents of the A file it matched |
| FileStores.NothingComparedYet | cli/src/filestore.rs:80-83 | before the B loop, every A file is Baseline |
| FileStores.AfterMatchingUnmatched | cli/src/filestore.rs:111-114 | an unmatched B file leaves the A list unchanged |
| FileStores.IndexByPath | cli/src/filestore.rs:73-78 | the loop builds the path index |
| FileStores.PathsOfValues | cli/src/filestore.rs:118-122 | the paths of the values are the paths of the files |
| FileStores.MarkAll | cli/src/filestore.rs:80-83 | every file gets the label and nothing else changes |
| FileStores.MarkRemoved | cli/src/filestore.rs:124-129 | files whose path is missing from B become Removed; other files keep their state |
| Api.LowerLiteral | cli/src/main.rs:121-126 | the lower-cased variant names are the literal strings of the listing |
| Api.ResultNameIsLowerDisplay | cli/src/main.rs:120-127 | each label is the lower-cased variant name (the B listing repeats the mapping at lines 146-153) |
| Api.ResultNameRoundTrip | cli/src/main.rs:120-127 | labels are distinct: each one, "unknown" included, identifies its result |
| Api.ListingRows | cli/src/main.rs:119-136 | one row per stored file, in store order, carrying that file's name, path, extension, size and label |
| Api.ListedLabelOfA | cli/src/main.rs:115-139 | after comparing, an A row reads "removed" exactly when its path is absent from B, else "baseline" |
| Api.ListedLabelOfB | cli/src/main.rs:141-165 | after comparing, a B row reads "added" exactly when its path is absent from A, else "modified" or "baseline" |
| Api.ServeContents | cli/src/main.rs:173-189 | NOT_FOUND for an index past the end; otherwise the file is read in place and the answer follows its contents |
| Api.ContentsAnswerCases | cli/src/main.rs:178-189 | a file that has or reads contents is answered with its name, path and text; otherwise NOT_FOUND |
| Api.GetFileAContents | cli/src/main.rs:167-190 | an index past list A is not found; otherwise file A is read again (a failed read keeps the cache), its label is untouched, and the answer is its text or not found |
| Api.GetFileBContents | cli/src/main.rs:192-215 | the same rule for list B: bounds, re-read, label untouched, answer |
| FileTree.NormalizationKeepsSegments | web_app/src/pages/FileView.jsx:136-137 | prefixing '/' does not change the non-empty segments |
| FileTree.SegmentsAreNames | web_app/src/pages/FileView.jsx:137 | segments are non-empty and slash-free |
| FileTree.UnderJoins | web_app/src/pages/FileView.jsx:140-166 | descending through the directory segments builds base + '/' + the joined segments |
| FileTree.FileUriJoinsSegments | web_app/src/pages/FileView.jsx:169-170 | a file node's uri is '/root/' followed by the segments joined with '/' ('undefined' when there are none) |
| FileTree.FileNodeDefaults | web_app/src/pages/FileView.jsx:173-182 | size defaults to 0 and status to 'baseline'; the path is kept |
| FileTree.FindDir | web_app/src/pages/FileView.jsx:144-166 | finds the child directory with that uri, or reports that none has it |
| FileTree.ConvertFilesToTreeFormat | web_app/src/pages/FileView.jsx:110-189 | null for a missing or empty list, otherwise an expanded '/root' directory holding the grown tree |
| FileTree.ChildUriOf | web_app/src/pages/FileView.jsx:144-150 | a directory's uri extends its parent's by one name |
| FileTree.InsertKeepsTidy | web_app/src/pages/FileView.jsx:140-185 | inserting a file keeps every node a direct child of its parent uri, with sibling directories distinct |
| FileTree.GrowIsTidy | web_app/src/pages/FileView.jsx:130-186 | the converted tree is tidy |
| FileTree.NoDuplicatesAppend | web_app/src/pages/FileView.jsx:144-166 | proof helper: two duplicate-free, disjoint uri lists join duplicate-free |
| FileTree.NameHasNoSlash | web_app/src/pages/FileView.jsx:144-150 | proof helper: a child's own name has no '/' |
| FileTree.BelowSharesPrefix | web_app/src/pages/FileView.jsx:144-166 | a uri below a directory starts with that directory's uri |
| FileTree.SameLengthBelow | web_app/src/pages/FileView.jsx:144-166 | two ancestors of the same length are equal |
| FileTree.SlashAfter | web_app/src/pages/FileView.jsx:144-166 | a strict descendant continues with '/' |
| FileTree.DisjointBranches | web_app/src/pages/FileView.jsx:144-166 | distinct children have disjoint subtrees |
| FileTree.DirsBelowRoot | web_app/src/pages/FileView.jsx:144-166 | every directory uri of a tidy node lies below it |
| FileTree.DirsBelowParent | web_app/src/pages/FileView.jsx:144-166 | every directory uri among the children starts with the parent uri and '/' |
| FileTree.BranchApart | web_app/src/pages/FileView.jsx:144-166 | a uri below a missing child directory is not already in the tree |
| FileTree.DirUrisUnique | web_app/src/pages/FileView.jsx:125-166 | directory uris in a tidy node are unique |
| FileTree.DirUrisUniqueIn | web_app/src/pages/FileView.jsx:125-166 | directory uris among tidy children are unique |
| FileTree.ConvertedDirsUnique | web_app/src/pages/FileView.jsx:125-166 | the converted tree creates each directory once, so its directory uris are unique |
| FileTree.CountFilesInAppend | web_app/src/pages/FileView.jsx:213 | proof helper: file counts add up over children lists |
| FileTree.CountDirectoriesInAppend | web_app/src/pages/FileView.jsx:223 | proof helper: directory counts add up over children lists |
| FileTree.CountFilesInUpdate | web_app/src/pages/FileView.jsx:213 | proof helper: replacing one child changes the file count by the difference |
| FileTree.CountDirectoriesInUpdate | web_app/src/pages/FileView.jsx:223 | proof helper: replacing one child changes the directory count by the difference |
| FileTree.InsertAddsOneFile | web_app/src/pages/FileView.jsx:185 | inserting a file adds exactly one file |
| FileTree.InsertAddsFewDirectories | web_app/src/pages/FileView.jsx:144-166 | inserting a file adds at most one directory per intermediate segment |
| FileTree.GrowCountsFiles | web_app/src/pages/FileView.jsx:130-186 | the tree has one file per input file with a truthy path |
| FileTree.TreeCounters | web_app/src/pages/FileView.jsx:209-224 | `countFiles` of a converted tree is the number of files with a path, and `countDirectories` counts the root, so it is at least 1 |
| FileTree.StatusIgnoresCase | web_app/src/pages/FileView.jsx:229-243 | the per-status count ignores the letter case of the status |
| FileTree.StatusIgnoresCaseIn | web_app/src/pages/FileView.jsx:241-242 | the same over a list of children |
| FileTree.StatusCountAtMostFiles | web_app/src/pages/FileView.jsx:229-243 | a per-status count never exceeds the file count |
| FileTree.StatusCountAtMostFilesIn | web_app/src/pages/FileView.jsx:241-242 | the same over a list of children |
| FileTree.SummaryBounds | web_app/src/pages/FileView.jsx:464-472 | added and modified come from tree B and removed from tree A, each bounded by that tree's files; a missing tree counts 0 |
| FileTree.ToggleTwice | web_app/src/pages/FileView.jsx:314-326 | toggling flips a directory's expansion only, does nothing to a file, and twice restores the node |
| FileTree.ClickRouteCases | web_app/src/pages/FileView.jsx:377-394 | baseline or modified → `/diff/enc(p)/enc(p)`, removed → `/diff/enc(p)/`, added → `/diff//enc(p)`; directories and other statuses do nothing |
| History.NewEntryDefaults | web_app/src/hooks/useComparisonHistory.js:48-54 | the id defaults to the timestamp's decimal text and a given id is kept; missing stats become zeros; the date is the current time |
| History.AddToRecentShape | web_app/src/hooks/useComparisonHistory.js:57-64 | the new entry is first, at most 20 entries remain, no other entry has the same file pair, and the rest keep their previous order |
| History.PrefixSubsequence | web_app/src/hooks/useComparisonHistory.js:63 | cutting to 20 keeps an ordered sublist |
| History.AddToRecentKeeps | web_app/src/hooks/useComparisonHistory.js:59-63 | when the list had fewer than 20 entries, every older entry with a different pair stays |
| History.AddKeepsPairsUnique | web_app/src/hooks/useComparisonHistory.js:57-64 | adding keeps file pairs unique in the recent list |
| History.FilterKeepsUnique | web_app/src/hooks/useComparisonHistory.js:59-62 | filtering keeps file pairs unique |
| History.FilterAll | web_app/src/hooks/useComparisonHistory.js:110 | filtering by a test every entry passes keeps the whole list; used to show that unstarring right after starring restores the starred list |
| History.WithoutIdMeaning | web_app/src/hooks/useComparisonHistory.js:86-87 | deleting by id leaves no entry with that id and keeps every other entry in order |
| History.ToggleFlips | web_app/src/hooks/useComparisonHistory.js:106-119 | after toggling, the comparison's id is starred (some starred entry has it, as `isStarred` tests) exactly when it was not before |
| History.ToggleTwiceRestores | web_app/src/hooks/useComparisonHistory.js:106-119 | two toggles from unstarred restore the starred list |
| History.ToggleKeepsIdsUnique | web_app/src/hooks/useComparisonHistory.js:106-119 | starring keeps ids unique in the starred list |
| History.FilterKeepsIds | web_app/src/hooks/useComparisonHistory.js:110 | filtering keeps ids unique |
| History.DeleteKeepsInvariants | web_app/src/hooks/useComparisonHistory.js:86-87 | deleting keeps the length bound and both uniqueness invariants |
| History.ComparisonHistory.constructor | web_app/src/hooks/useComparisonHistory.js:15-26 | the hook starts unmounted with both lists empty |
| History.ComparisonHistory.Mount | web_app/src/hooks/useComparisonHistory.js:29-30 | mounting sets the flag and keeps the lists |
| History.ComparisonHistory.Unmount | web_app/src/hooks/useComparisonHistory.js:31-33 | unmounting clears the flag and keeps the lists |
| History.ComparisonHistory.AddComparison | web_app/src/hooks/useComparisonHistory.js:44-72 | a no-op when not mounted; otherwise the recent list becomes the new entry, then the older entries with other pairs, cut to 20 |
| History.ComparisonHistory.DeleteComparison | web_app/src/hooks/useComparisonHistory.js:79-96 | a no-op when not mounted; otherwise both lists lose every entry with the id |
| History.ComparisonHistory.ToggleStarred | web_app/src/hooks/useComparisonHistory.js:103-127 | a no-op when not mounted; otherwise the starred list is toggled for the comparison's id |
| History.GetFileNameIsLastPiece | web_app/src/hooks/useComparisonHistory.js:135-138 | for a present path, the name is the last '/'-piece: slash-free, a suffix of the path, and preceded by '/' when shorter than it |
| History.UnitsCompose | web_app/src/hooks/useComparisonHistory.js:151-153 | floor(floor(ms/60000)/60) is floor(ms/3600000), and days compose the same way |
| History.FormatDateBands | web_app/src/hooks/useComparisonHistory.js:146-164 | under a minute 'Just now'; under an hour 'N min ago'; under a day 'N hour(s) ago'; under a week 'N day(s) ago'; otherwise the locale date |
| ScrollSync.WrittenPanes | web_app/src/components/diff-viewer/DiffViewer.jsx:129-140 | the frame writes the event's offset to every pane except its source |
| ScrollSync.ResizeAligns | web_app/src/components/diff-viewer/DiffViewer.jsx:172-178 | a resize frame (source null) gives all three panes the left pane's offset |
| ScrollSync.InitialSettled | web_app/src/components/diff-viewer/DiffViewer.jsx:54-58 | the initial state has no frame and no sync in progress |
| ScrollSync.SyncedMeaning | web_app/src/components/diff-viewer/DiffViewer.jsx:115-127 | an event from another pane during a sync changes nothing; an accepted one records its source, sets scrolling and leaves exactly one pending frame |
| ScrollSync.SyncedKeepsSettled | web_app/src/components/diff-viewer/DiffViewer.jsx:115-145 | with the previous frame cancelled, at most one frame is pending and it matches the recorded source |
| ScrollSync.RanKeepsSettled | web_app/src/components/diff-viewer/DiffViewer.jsx:129-144 | running the frame clears scrolling and leaves nothing pending |
| ScrollSync.SyncedAsWrittenMeaning | web_app/src/components/diff-viewer/DiffViewer.jsx:115-129 | as written, an ignored event changes nothing; an accepted one records its source, sets scrolling and queues its frame behind the uncancelled ones, all from the same source |
| ScrollSync.RanKeepsInStep | web_app/src/components/diff-viewer/DiffViewer.jsx:129-144 | as written, a frame runs every queued callback, clears scrolling and empties the queue |
| ScrollSync.RunAllFromOneSource | web_app/src/components/diff-viewer/DiffViewer.jsx:129-140 | callbacks all queued by one pane leave the panes as the newest one alone would |
| ScrollSync.ScrollThenFrameAligns | web_app/src/components/diff-viewer/DiffViewer.jsx:115-145 | an accepted event followed by its frame leaves all panes at the event's offset |
| ScrollSync.AsWrittenFrameAligns | web_app/src/components/diff-viewer/DiffViewer.jsx:115-164 | as written, an accepted scroll followed by the next frame also leaves all panes at the scrolled offset |
| ScrollSync.CorrectedFrameWrites | web_app/src/components/diff-viewer/DiffViewer.jsx:115-145 | with the previous frame cancelled, the frame after an accepted event writes that event's offset to the other panes |
| ScrollSync.AsWrittenFrameWrites | web_app/src/components/diff-viewer/DiffViewer.jsx:115-145 | as written, the queued frames after an accepted event together write that event's offset to the other panes |
| ScrollSync.AsWrittenAgreesAfterFrame | web_app/src/components/diff-viewer/DiffViewer.jsx:115-145 | from a settled state, the code as written and the corrected handler leave the same offsets once the frame runs |
| ScrollSync.AsWrittenKeepsStaleFrame | web_app/src/components/diff-viewer/DiffViewer.jsx:120-127 | as written, two left scrolls before a frame leave both callbacks queued (the stale one is not cancelled); the frame still ends with all panes at 20 |
| ScrollSync.CorrectedKeepsOneFrame | web_app/src/components/diff-viewer/DiffViewer.jsx:115-145 | with the previous frame cancelled, the same events leave only the newest callback queued, and the same offsets |
| ScrollSync.Viewer.constructor | web_app/src/components/diff-viewer/DiffViewer.jsx:54-58 | the viewer starts settled with the given pane offsets |
| ScrollSync.Viewer.RequestFrame | web_app/src/components/diff-viewer/DiffViewer.jsx:129 | a frame gets a fresh id and queues behind the pending ones |
| ScrollSync.Viewer.CancelFrame | web_app/src/components/diff-viewer/DiffViewer.jsx:127 | cancelling null does nothing; cancelling an id removes that frame |
| ScrollSync.Viewer.SyncScrollAsWritten | web_app/src/components/diff-viewer/DiffViewer.jsx:115-145 | the state follows the as-written transition |
| ScrollSync.Viewer.SyncScroll | web_app/src/components/diff-viewer/DiffViewer.jsx:115-145 | the state follows the corrected transition and stays settled |
| ScrollSync.Viewer.Scrolled | web_app/src/components/diff-viewer/DiffViewer.jsx:148-164 | a user scroll moves that pane and then calls the handler as written with it as source |
| ScrollSync.Viewer.Resize | web_app/src/components/diff-viewer/DiffViewer.jsx:172-178 | a resize calls the handler as written with no source at the left pane's offset |
| ScrollSync.Viewer.ScrolledCorrected | web_app/src/components/diff-viewer/DiffViewer.jsx:148-164 | the scroll handler with the corrected cancel |
| ScrollSync.Viewer.ResizeCorrected | web_app/src/components/diff-viewer/DiffViewer.jsx:172-178 | the resize handler with the corrected cancel |
| ScrollSync.Viewer.RunFrame | web_app/src/components/diff-viewer/DiffViewer.jsx:129-144 | the next frame runs every queued callback in order: each writes the panes other than its source and clears scrolling; the queue ends empty |
| ScrollSync.SyncedKeepsSettledIf | web_app/src/components/diff-viewer/DiffViewer.jsx:115-145 | the corrected transition keeps the state settled |
| ScrollSync.ContentHeightIsMax | web_app/src/components/diff-viewer/DiffViewer.jsx:197-201 | the height is max(24·left lines, 24·right lines, 100) |
| ScrollSync.LanguageIgnoresCase | web_app/src/components/diff-viewer/DiffViewer.jsx:95 | the lookup ignores the letter case of the extension |
| ScrollSync.LanguageCases | web_app/src/components/diff-viewer/DiffViewer.jsx:61-95 | null exactly for a missing or empty extension; an unknown extension gives itself, lower-cased; a result is never empty |
| DiffHooks.StatusCases | web_app/src/components/diff-viewer/useDiffViewer.js:162-168 | 'added' exactly when A has no text and B has; 'removed' the reverse; 'modified' exactly when both have differing texts; 'unchanged' otherwise |
| DiffHooks.StatusSwap | web_app/src/components/diff-viewer/useDiffViewer.jsx:30-35 | swapping the two files swaps added and removed and keeps the other statuses |
| DiffHooks.FirstMatchMeaning | web_app/src/components/diff-viewer/useDiffViewer.js:118-126 | the found entry is the first whose index on that side plus 1 is the line number, or none when no entry has that |
| DiffHooks.HoverOnProcessedDiff | web_app/src/components/diff-viewer/useDiffViewer.js:114-139 | on any processed diff the lookup succeeds; the set holds the hovered number and at most one partner |
| DiffHooks.HoverLinksSameText | web_app/src/components/diff-viewer/useDiffViewer.js:127-134 | a highlighted partner line carries the same text and kind as the hovered line |
| DiffHooks.DisplayHook.constructor | web_app/src/components/diff-viewer/useDiffViewer.js:19-28 | empty diff, empty processed result, zero stats, no highlight |
| DiffHooks.DisplayHook.CalculateDiff | web_app/src/components/diff-viewer/useDiffViewer.js:39-77 | nothing happens when both files are missing; otherwise the diff of the two texts ('' for a missing file) is stored |
| DiffHooks.DisplayHook.ProcessResult | web_app/src/components/diff-viewer/useDiffViewer.js:80-111 | nothing happens for an empty diff; otherwise the processed diff, the joined pane texts and the stats are stored |
| DiffHooks.DisplayHook.FindMatch | web_app/src/components/diff-viewer/useDiffViewer.js:119-125 | the loop returns the first matching change-map index, or -1 |
| DiffHooks.DisplayHook.MouseEnter | web_app/src/components/diff-viewer/useDiffViewer.js:114-139 | the highlight becomes the hovered number plus the partner's number |
| DiffHooks.DisplayHook.MouseLeave | web_app/src/components/diff-viewer/useDiffViewer.js:141-143 | the highlight becomes empty |
| DiffHooks.MatchFromHit | web_app/src/components/diff-viewer/useDiffViewer.js:119-125 | a matching entry ends the search there |
| DiffHooks.MatchFromMiss | web_app/src/components/diff-viewer/useDiffViewer.js:119-125 | a non-matching entry moves the search on |
| DiffHooks.MatchFromEnd | web_app/src/components/diff-viewer/useDiffViewer.js:119-125 | an exhausted search finds nothing |
| DiffHooks.ReduceStats | web_app/src/components/diff-viewer/useDiffViewer.jsx:116-128 | the loop's totals are the statistics of the hunks: one `max(1, newline count)` per hunk, in its kind's bucket |
| DiffHooks.ReduceAgreesWithCalculateDiffStats | web_app/src/components/diff-viewer/useDiffViewer.jsx:116-128 | hunks handed over as parts are all well-formed, so `calculateDiffStats` counts every one of them as the hook's reduction does |
| DiffHooks.StatsHook.constructor | web_app/src/components/diff-viewer/useDiffViewer.jsx:20-21 | empty diff and zero stats |
| DiffHooks.StatsHook.CalculateDiff | web_app/src/components/diff-viewer/useDiffViewer.jsx:58-131 | nothing when both files are missing; an empty or invalid diff sets the diff to [] and keeps the stats; otherwise the diff and its stats are stored |

## Left out

- The `diff` library's line diff (`diffLines`) is a foreign longest-common-subsequence call. Its hunk list is an input or a function parameter.
- Grouping connectors into "blobs" is not modelled. The connector component in the source is a placeholder that returns null.
- The network layer is not modelled: `api.js`, the fetch code of both pages, the axum router, the tokio runtime and the `Arc<Mutex>` locking.
- Filesystem access is not modelled: `scan_directory`, `FileStore::new`, `read_to_string` and `metadata`. A read is the `disk` oracle.
- `small_path`, `name` and `extension` come from `PathBuf` methods. They are constructor parameters; only the "" default for a missing extension is modelled.
- `size_bytes` is a `u64` carried unchanged. No arithmetic is done on it.
- The percentage-based scroll sync in both diff hooks is not modelled. It relies on floating-point division and timers.
- `formatBytes` and `getPercentage` are not modelled. They are floating-point helpers.
- localStorage persistence is not modelled, and neither are notifications.
- `Date` is not modelled: the time is a parameter. History.FormatDateBands takes the elapsed milliseconds, or `None` in place of the date's locale text.
- History.FormatDateBands: the `catch` branch returning 'Unknown date' is not modelled. `new Date` on a bad string gives an invalid date rather than throwing, so nothing in the body throws.
- The lodash `orderBy` sorter in the file view is not modelled.
- `encodeURIComponent`/`decodeURIComponent` are opaque function parameters. `decode` returns `None` where `decodeURIComponent` throws a `URIError`.
- React effect scheduling, `setTimeout`, `isCalculating` and stale closures are not modelled. A hook update is one atomic method call on the hook's class.
- The one-shot history save of the diff page is not modelled, nor are the rendering components.
- History.ComparisonHistory.ToggleStarred reads the current starred list. The source reads the list captured at the last render, so two toggles in one render are not modelled.
- Lower-casing covers ASCII letters only. JavaScript's `toLowerCase` also folds other scripts.
- The file tree is a value datatype, built by `Grow` and `InsertFile`. The source mutates shared node objects through `dirMap`, and that aliasing is not modelled. `toggleExpanded` is modelled on values for the same reason.
- The counts logged at the end of `compare_files` (cli/src/filestore.rs:131-161) are not modelled. They only feed a log line.
- Api.GetFileAContents and Api.GetFileBContents share one method, ServeContents, because the two handlers differ only in the list they read.
- The extension lookups do not model inherited object properties: a key such as `constructor` would find a prototype member in JavaScript. Only own entries of the table are modelled.
- ScrollSync.Viewer.Scrolled: the browser clamps `scrollTop` to the scrollable range. That clamping is not modelled, so offsets are plain integers.
- The viewer's effect cleanup (listener removal and the final frame cancel) is not modelled: the model covers one mounted viewer.
- The scroll events a browser fires after a frame writes `scrollTop` are not generated automatically. Each one is a further ScrollSync.Viewer.Scrolled call.
- DiffHooks.DisplayHook.MouseEnter: when the change map points outside the panes, the source throws. The model then leaves the highlight unchanged. No processed diff produces such an index (DiffHooks.HoverOnProcessedDiff).
- Three behaviours of the code are modelled as they are:
  - No removed connector is ever produced. The pass at web_app/src/pages/DiffView.jsx:127-139 runs before any added line has been seen, so its `lastRightAddedIndex` is always -1.
  - Every added connector points at the last removed left line (web_app/src/pages/DiffView.jsx:141-155), not at a nearby removed line.
  - The viewer copies absolute `scrollTop` offsets between panes (web_app/src/components/diff-viewer/DiffViewer.jsx:129-140), not proportions of the scroll height.
- ScrollSync.Ran: a frame runs every callback queued before it starts. Callbacks queued while the frame runs wait for the next frame. Browsers fire scroll events in the same rendering step just before those callbacks, and that ordering is not modelled: events and frames are separate calls.

## Findings

| source | as written | input that shows it | evidently intended | confidence | as-written member | corrected member |
|---|---|---|---|---|---|---|
| web_app/src/components/diff-viewer/DiffViewer.jsx:120-127 | `syncScroll` sets the stored frame id to null and only then calls `cancelAnimationFrame` with it, so the cancel never cancels anything | scroll the left pane to 10, then to 20, before a frame runs: two callbacks are queued and the stale one (offset 10) still runs; the panes still end at 20, because the newer callback runs after it (ScrollSync.AsWrittenAgreesAfterFrame) | cancel the previously requested frame before requesting a new one, so at most one callback is queued | not executed; no visible effect on the final offsets | ScrollSync.AsWrittenKeepsStaleFrame (with ScrollSync.SyncedAsWritten, ScrollSync.Viewer.SyncScrollAsWritten) | ScrollSync.CorrectedKeepsOneFrame (with ScrollSync.Synced, ScrollSync.Viewer.SyncScroll, ScrollSync.SyncedKeepsSettled, ScrollSync.ScrollThenFrameAligns) |
