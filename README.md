# Quick Sticky notes, modelled in Dafny

Quick Sticky is a browser extension. It lets a reader pin sticky notes on any
web page, keeps them in `chrome.storage.local` under one object keyed by page
(origin, path and query), and shows a history panel with every note ever
stored. This project models the core of its content script
(`quick-sticky/content.js`):

- **The note store.** The class `Store.NoteStore` holds the script's
  module-level state as fields:
  - `notes`, with the insertion order a JavaScript `Map` iterates in;
  - the ids that have an element on the page;
  - `activeStorageKeys`;
  - the cached stored object;
  - the debounce timer;
  - the single-flight write gate `saveInFlight` / `pendingSave`.

  Its methods are the data half of `createNote`, plus `markEdited`,
  `closeNote`, `deleteNote`, `reopenNote`, `openOrFocusNote` and
  `hydrateFromStorage`.
- **The persistence engine.**
  - `scheduleSave`, `saveNow` and `flushSave` are methods of the same class.
  - The two asynchronous events, a timer firing and a storage write settling,
    are methods the runtime calls.
  - `buildStorageSnapshot` is a loop, proved equal to the specification
    function `Snapshot.SnapshotOf`.
  - `serializeNote` and `normalizeStoredNote` are functions over a small
    datatype of JavaScript values (`Values.JsValue`), which captures what
    `Number()`, `Boolean()` and `!==` see.
- **Pure helpers**, each in its own module:
  - `parseYouTube` and `buildYouTubeItem` (`YouTube`);
  - `getCurrentLine` and `removeRange` (`Editing`);
  - the history panel's entries, titles, period keys and period groups, and
    the rule in `render` that resets a stale period to "all" (`History`);
  - `Array.prototype.sort` as an insertion sort (`Sorting`);
  - `isCreateShortcut` and `clamp` (`Controls`);
  - string and number conversions (`Text`, `Values`).

The standing invariants of the store are stated on plain values in
`Invariants`:
- `NotesOk`: every note sits under its own non-empty id, in the order list
  once. Its owner key is active. Exactly the open notes have an element.
- `TimerOk`: at most one timer is pending, and it is `saveTimer`.
- `FlightOk`:
  - writes never overlap: at most one is unsettled, and one is unsettled
    exactly while the gate is closed;
  - `pendingSave` says whether a flush was asked for after the running
    write's snapshot was taken;
  - once the gate opens after a successful write, that write's snapshot was
    taken after the last flush request.

`Store.NoteStore.Valid` combines the three, and every method keeps it.

On the example of a note with text `"hello"` to which a line holding a YouTube
link is added and Enter pressed on it: `removeRange` leaves `"hello\n"`, not
`"hello"`. It cuts the line but not the line break before it (see
`Editing.RemovingTrailingLine`). The model follows the code.

Two ways the code as written loses stored notes, both reproduced by the model:
- **Opening a note of another page.** `openOrFocusNote` files a note found in
  the stored list of another page `k` and makes `k` active. From then on every
  snapshot rebuilds `k`'s list from the notes in memory alone
  (`Snapshot.ActiveListHoldsOnlyLoadedNotes`). The other notes stored under
  `k` were never loaded, so the next write drops them
  (`Snapshot.OpeningStoredNoteDropsItsNeighbours`).
- **A note created before hydration.** The Alt+N and message listeners are
  registered before `await hydrateFromStorage()` (content.js:96-115). A note
  created in that window schedules a save 150 ms later (content.js:1004-1011).
  Whether anything is lost depends on timing:
  - If `storageGet` resolves first, hydration sets the cache from storage
    (content.js:1083-1088), and the save rebuilds the other pages from it.
    Nothing is lost.
  - If that timer fires first, or a `closeNote`/`deleteNote` calls `saveNow`
    before `storageGet` resolves, the snapshot is taken from the empty initial
    cache (`Store.NoteStore.constructor`, `Store.NoteStore.FlushSave`). The
    object written then holds only the current page's list with that note
    (`Snapshot.SnapshotBeforeHydrationHoldsOnlyNewNote`), and it replaces the
    whole stored object.
  - The model makes the order of these events explicit: each is a separate
    method call (`Hydrate`, `OnSaveTimer`, `SaveNow`).

## Model

| member | source | states |
|---|---|---|
| Text.Trim | quick-sticky/content.js:454 | the result neither starts nor ends with white space; it is the stretch of the input left when the leading and the trailing white-space runs are cut, and only white space is cut |
| Text.TrimKeepsPrintable | quick-sticky/content.js:454 | a string that neither starts nor ends with white space is its own trim |
| Text.NatToString | quick-sticky/content.js:517-519 | `String(n)` is a non-empty run of digits, one digit exactly for n < 10 |
| Text.IntToString | quick-sticky/content.js:517 | `String(i)` is never empty |
| Text.Pad2 | quick-sticky/content.js:518-519 | `padStart(2, "0")` of a number below 100 is its tens digit then its units digit |
| Text.DigitsValueOfNatToString | quick-sticky/content.js:517-519 | reading back the digits `String(n)` wrote gives n |
| Text.NatToStringInjective | quick-sticky/content.js:517-519 | distinct naturals have distinct decimal renderings, both directions |
| Text.IntToStringInjective | quick-sticky/content.js:517 | distinct integers have distinct decimal renderings, both directions |
| Text.ToLowerAscii | quick-sticky/content.js:122 | same length; no upper-case ASCII letter is left, and exactly the upper-case letters change |
| Values.FiniteOr | quick-sticky/content.js:1171-1174 | a number passes through; null, false, "" and [] give 0; true gives 1; undefined, NaN, the infinities and objects give the fallback |
| Values.ReadsDigits | quick-sticky/content.js:1171-1174 | `Number` of a run of digits is the number it denotes |
| Values.ReadsNegatedDigits | quick-sticky/content.js:1171-1174 | `Number` of a minus sign and a run of digits is the negated number |
| Values.FiniteOrReadsDecimalStrings | quick-sticky/content.js:1171-1174 | a number written out as a string converts back to itself |
| Controls.IsCreateShortcut | quick-sticky/content.js:118-124 | a shortcut is always Alt with no other modifier and no key repeat |
| Controls.ShortcutExactly | quick-sticky/content.js:118-124 | the shortcut fires iff Alt alone, no repeat, and code `KeyN` or key n/N |
| Controls.Clamp | quick-sticky/content.js:1176-1178 | the result is at most `max`; at least `min` when min <= max; the value itself when in range; `max` when the bounds cross |
| Records.NormalizeStoredNote | quick-sticky/content.js:1118-1157 | `changed` iff the record differs from the note it is read as; id kept iff a non-empty string, else the fresh id; page key likewise, else the fallback; text "" and items [] when of the wrong type; createdAt falls back to the clock, updatedAt to createdAt |
| Records.NormalizeReadsValues | quick-sticky/content.js:1118-1157 | finite timestamps are kept; x and y are the finite number read or the pointer's coordinate; `isClosed` is the record's truthiness |
| Records.NormalizeSerialized | quick-sticky/content.js:1040-1054 | a serialized note normalizes back to itself, with its owner key, unchanged |
| Records.NormalizeIdempotent | quick-sticky/content.js:1118-1157 | normalizing a normalized record gives the same note and `changed == false`, whatever the clock, id supply and pointer |
| Records.FirstWithId | quick-sticky/content.js:446 | the index of the first record whose id is the string, or none when no record has it |
| Records.FindStoredNote | quick-sticky/content.js:444-451 | none iff no record of the key's list has the id; otherwise the first record with that id, normalized against the page key it was looked up under |
| Snapshot.BucketCount | quick-sticky/content.js:1066-1072 | with distinct ids, a key's list holds a record with a given id once if that note is filed under the key, else not at all |
| Snapshot.BucketMembers | quick-sticky/content.js:1066-1072 | every record of a key's list is the serialized form of a note filed under that key |
| Snapshot.ListedDistinct | quick-sticky/content.js:1066 | the notes in map order have distinct ids |
| Snapshot.ListedFiledAt | quick-sticky/content.js:1067-1069 | a note of the store is filed under its own owner key |
| Snapshot.SnapshotPlacesEachNoteOnce | quick-sticky/content.js:1056-1081 | the snapshot's keys are the old keys plus the active ones; inactive keys are copied; every active key holds a list in which each note appears once under its owner key and a deleted note nowhere |
| Snapshot.SnapshotLookup | quick-sticky/content.js:444-451 | looking a note up in a snapshot under its owner key gives the note back, not flagged for migration |
| Snapshot.CountPositive | quick-sticky/content.js:446 | a positive count means some record carries the id |
| Snapshot.ActiveListHoldsOnlyLoadedNotes | quick-sticky/content.js:1056-1072 | every record of an active key's new list belongs to a note in memory |
| Snapshot.OpeningStoredNoteDropsItsNeighbours | quick-sticky/content.js:388-420 | with page `k` activated by opening its note `b`, the next snapshot writes `k`'s list as `[b]` and a record stored beside it is gone |
| Snapshot.SnapshotBeforeHydrationHoldsOnlyNewNote | quick-sticky/content.js:96-115 | a snapshot from the empty initial cache holds the current page's list with the new note and nothing else |
| Snapshot.SnapshotNeedsNoMigration | quick-sticky/content.js:1134-1144 | every record of an active list of a snapshot normalizes with `changed == false` |
| Sorting.InsertBy | quick-sticky/content.js:580 | inserting adds exactly one element (multiset) |
| Sorting.InsertSorted | quick-sticky/content.js:580 | inserting into a descending list keeps it descending |
| Sorting.SortDescBy | quick-sticky/content.js:580 | the sorted copy is descending by rank and a permutation of the input |
| Sorting.SortKeepsElements | quick-sticky/content.js:580 | sorting keeps the length and membership, both directions |
| Sorting.InsertKeepsDistinct | quick-sticky/content.js:493 | inserting an element with a new key keeps keys distinct |
| Sorting.SortKeepsDistinct | quick-sticky/content.js:493 | sorting keeps distinct keys distinct |
| History.PushEntries | quick-sticky/content.js:567-578 | the inner loop appends one entry per record of the list, in order |
| History.GetHistoryEntries | quick-sticky/content.js:561-581 | the result is sorted by `updatedAt`, newest first, and is a permutation of the entries of every stored list, key by key |
| History.FlatEntriesListEveryRecord | quick-sticky/content.js:563-578 | every record of every stored list has its entry among the entries |
| History.ListEntriesHasEach | quick-sticky/content.js:567-578 | every record of one list has its entry |
| History.CollapseSpaces | quick-sticky/content.js:456 | no longer than the input; white space only as single spaces, never two in a row; a non-space first character is kept |
| History.CollapseKeepsWords | quick-sticky/content.js:456 | every character other than white space is kept, in order |
| History.CollapseRun | quick-sticky/content.js:456 | a leading white-space run of any length, before a non-space, becomes exactly one space |
| History.CollapseWord | quick-sticky/content.js:456 | a non-space character is kept and the rest collapses on its own |
| History.CollapseBeforeRun | quick-sticky/content.js:456 | text that ends in a non-space collapses independently of a following tail that starts with white space |
| History.CollapseRunAnywhere | quick-sticky/content.js:456 | a white-space run anywhere, between non-spaces or the ends, becomes exactly one space, and the text on each side collapses on its own |
| History.CardLine | quick-sticky/content.js:456 | the collapsed text cut to its first 56 characters (all of it when shorter) |
| History.HistoryTitle | quick-sticky/content.js:453-464 | never empty; a non-blank text gives the card line of the trimmed text, which starts with a printable character; a blank text with media gives `Media note (<images> image, <links> link)`; no text and no media gives "Untitled note" |
| History.Pad2Injective | quick-sticky/content.js:518-519 | two-digit padding is injective, both directions |
| History.PeriodKeyInjective | quick-sticky/content.js:516-528 | two dates share a period key iff they fall in the same year, month or day for the granularity |
| History.PeriodKeyIsNotReserved | quick-sticky/content.js:516-528 | no period key is "all" or empty |
| History.CollectPeriods | quick-sticky/content.js:477-492 | the first pass yields one group per period met, with distinct keys, each carrying the newest update time of its period |
| History.BuildPeriodGroups | quick-sticky/content.js:476-494 | groups sorted by `latest`, newest first; distinct keys; every entry's period has a group; each group's `latest` is the maximum `updatedAt` of its period |
| History.GroupsFromSummary | quick-sticky/content.js:493 | sorting the collected groups keeps coverage and the per-group maximum |
| History.SummarizeStep | quick-sticky/content.js:479-491 | one loop pass keeps the summary of the entries seen so far |
| History.RenderPeriod | quick-sticky/content.js:274-281 | the selection is kept iff some group still has that key, else it becomes "all" |
| History.InPeriod | quick-sticky/content.js:283-285 | the filter keeps exactly the entries of the period |
| History.FilterAppend | quick-sticky/content.js:283-285 | `filter` distributes over concatenation, so what is kept keeps its order and multiplicity |
| History.InPeriodAppend | quick-sticky/content.js:283-285 | the entries of a period drawn from two stretches of the list are those of the first followed by those of the second |
| History.RenderedPeriodIsNeverStale | quick-sticky/content.js:272-288 | with groups built from the entries, `render` draws all entries for "all", and otherwise a non-empty list of exactly the entries of the kept period |
| Editing.LastNewlineBelow | quick-sticky/content.js:949 | the last '\n' below a bound, or -1, and none after it |
| Editing.FirstNewlineFrom | quick-sticky/content.js:950 | the first '\n' from a position, or -1, and none before it |
| Editing.LastIndexOfNewline | quick-sticky/content.js:949 | `lastIndexOf("\n", from)`: a '\n' at or before `from`, none between it and `from` |
| Editing.IndexOfNewline | quick-sticky/content.js:950 | `indexOf("\n", from)`: a '\n' at or after `from`, none between `from` and it |
| Editing.GetCurrentLine | quick-sticky/content.js:948-959 | start follows a '\n' or is 0; end is a '\n' or the length; text is `value[start..end]` with no '\n'; start > end only for caret 0 before a leading '\n'; otherwise the caret lies inside the line |
| Editing.CollapseNewlines | quick-sticky/content.js:967 | no run of three '\n' is left; the first characters are kept |
| Editing.UnbrokenAppend | quick-sticky/content.js:964-966 | dropping line breaks distributes over concatenation |
| Editing.CollapseKeepsText | quick-sticky/content.js:967 | collapsing drops only line breaks: the other characters stay, in order |
| Editing.CollapseKeepsTidyText | quick-sticky/content.js:967 | text without three '\n' in a row is left as it is |
| Editing.CollapseStep | quick-sticky/content.js:967 | a run of three '\n' anywhere collapses like a run of two |
| Editing.CollapseIdempotent | quick-sticky/content.js:967 | collapsing twice is collapsing once |
| Editing.RemoveRange | quick-sticky/content.js:961-968 | the result never holds three '\n' in a row |
| Editing.RemoveRangeOnTidyText | quick-sticky/content.js:961-968 | on text without three line breaks in a row, the result is the text before the cut followed by the text after it, with the second of two line breaks meeting at the cut dropped |
| Editing.RemoveRangeKeepsText | quick-sticky/content.js:961-968 | apart from line breaks, the result is the text before the cut followed by the text after it |
| Editing.RemoveLineDropsItsText | quick-sticky/content.js:719-723 | removing the caret's line drops its text and nothing else but line breaks |
| Editing.TrailingLine | quick-sticky/content.js:719 | with the caret at the end, the current line of `t + "\n" + link` is exactly `link` |
| Editing.RemovingAfterFirstBreak | quick-sticky/content.js:961-968 | cutting after the first line break of `t + "\n" + link` leaves `t + "\n"` |
| Editing.RemovingTrailingLine | quick-sticky/content.js:719-723 | a link typed on the last line is found as the caret's line, and removing it leaves the text before it with its line break |
| YouTube.StripWww | quick-sticky/content.js:923 | the host is unchanged iff it does not start with "www."; otherwise it is the host with that one prefix removed |
| YouTube.RunLength | quick-sticky/content.js:931 | the leading run without '/' ends at a '/' or at the end |
| YouTube.Segments | quick-sticky/content.js:931 | every segment is non-empty and holds no '/' |
| YouTube.SegmentsStep | quick-sticky/content.js:931 | a path `/w` followed by a further path splits into `w` and the segments of the rest |
| YouTube.RunLengthOf | quick-sticky/content.js:931 | the run before a '/' is exactly the word without '/' |
| YouTube.LeadingSegments | quick-sticky/content.js:931-933 | the first two segments of `/form/id…` are `form` and `id` |
| YouTube.ParseYouTube | quick-sticky/content.js:911-946 | no result for an empty or unparsable input; a result always has a known host, an id of 6 or more of `[A-Za-z0-9_-]`, and the URL as parsed |
| YouTube.ShortLinkId | quick-sticky/content.js:926-927 | on youtu.be the id is the path after its slash, accepted iff well-shaped |
| YouTube.QueryTakesPrecedence | quick-sticky/content.js:928-935 | on youtube.com and m.youtube.com a non-empty `v` decides alone, whatever the path |
| YouTube.PathFormId | quick-sticky/content.js:928-935 | without `v`, `/shorts/<id>` and `/embed/<id>` give the id, accepted iff well-shaped |
| YouTube.OtherHostsRejected | quick-sticky/content.js:923-939 | any other host gives no result |
| YouTube.BuildYouTubeItem | quick-sticky/content.js:880-909 | a YouTube item with the given url and id; without a reply the title is "YouTube Video" and the thumbnail the `hqdefault.jpg` fallback; a non-blank field of the reply is used trimmed, a blank one falls back |
| Invariants.Without | quick-sticky/content.js:827 | deleting keeps exactly the other ids |
| Invariants.WithoutAppend | quick-sticky/content.js:827 | deleting distributes over concatenation, so the other ids keep their order and count |
| Invariants.WithoutDistinct | quick-sticky/content.js:827 | deleting keeps the order list free of repeats |
| Invariants.FileKeepsNotesOk | quick-sticky/content.js:609-625 | filing a note (new id appended, known id in place; element for an open note only) keeps the notes invariant |
| Invariants.DropKeepsNotesOk | quick-sticky/content.js:819-830 | removing a note everywhere keeps the notes invariant |
| Hydration.ReviveSnoc | quick-sticky/content.js:1092-1093 | normalizing one more record appends its result |
| Hydration.RestoredSnoc | quick-sticky/content.js:1092-1111 | filing one more record files its note over what was there; the migration flag is raised iff it was or the record changed |
| Hydration.RestoredKeys | quick-sticky/content.js:1092-1111 | after hydration an id has a note iff it had one before or some record carries it |
| Hydration.FirstSeenMembers | quick-sticky/content.js:1098-1110 | an id is appended to the order iff it was not filed before and some record carries it |
| Hydration.FirstSeenDistinct | quick-sticky/content.js:1098-1110 | no id is appended to the order twice |
| Hydration.FileStep | quick-sticky/content.js:1098-1110 | filing one more record extends the order and the active keys as filing the longer list from the start would |
| Hydration.RestoredLastWins | quick-sticky/content.js:1092-1111 | the last record with a given id is what ends up filed under it |
| Hydration.Unaltered | quick-sticky/content.js:1092-1096 | none of the expected results is flagged as changed |
| Hydration.ReviveBucket | quick-sticky/content.js:1092-1096 | normalizing the list a snapshot wrote for the page gives its notes back, unaltered |
| Hydration.RestoreUnaltered | quick-sticky/content.js:1098-1110 | filing those notes files exactly the notes kept under the key |
| Hydration.HydrateSnapshotRoundTrip | quick-sticky/content.js:1083-1116 | hydrating from the list a save wrote for the page restores exactly the notes filed under it, and asks for no migration |
| Store.NoteFromSpec | quick-sticky/content.js:596-608 | the given id, text, items and closed flag; given coordinates, times and page key are kept; missing coordinates default to the pointer, missing times to the clock, a missing page key to the page's own |
| Store.RecreateKeepsNote | quick-sticky/content.js:422-442 | passing a note's own fields back to `createNote` files the same note, with the requested closed flag |
| Store.BucketSnoc | quick-sticky/content.js:1066-1072 | one more note appends its record to its owner's list only |
| Store.EmptyActiveLists | quick-sticky/content.js:1057-1061 | the copy has the old keys plus the active ones, every active key holding an empty list, every other key its old value |
| Store.BuildStorageSnapshot | quick-sticky/content.js:1056-1081 | the loop computes exactly `SnapshotOf` of the cache, active keys and notes in map order |
| Store.NoteStore.constructor | quick-sticky/content.js:31-43 | no notes, the page's key active, empty cache, no timer, no write |
| Store.NoteStore.MovePointer | quick-sticky/content.js:52-53 | the pointer moves and nothing else changes |
| Store.NoteStore.BuildSnapshot | quick-sticky/content.js:1031 | the snapshot of the current state |
| Store.NoteStore.ScheduleSave | quick-sticky/content.js:1004-1012 | exactly one timer is pending afterwards, a fresh one, the earlier one cleared; nothing else changes |
| Store.NoteStore.FlushSave | quick-sticky/content.js:1022-1038 | with a write running: no write, only `pendingSave`; otherwise the gate closes, the cache becomes the snapshot and it is written; notes and timer untouched |
| Store.NoteStore.WriteRound | quick-sticky/content.js:1029-1032 | `pendingSave` cleared, cache replaced by the snapshot, the snapshot appended to the writes |
| Store.NoteStore.SaveNow | quick-sticky/content.js:1014-1020 | no timer is pending, then a flush as above |
| Store.NoteStore.OnSaveTimer | quick-sticky/content.js:1008-1011 | only the pending timer can fire; it is forgotten and a flush runs |
| Store.NoteStore.OnWriteResolved | quick-sticky/content.js:1032-1037 | a flush asked for meanwhile re-snapshots and writes again; otherwise the gate opens, and then the last write was taken after the last request |
| Store.NoteStore.OnWriteRejected | quick-sticky/content.js:1035-1037 | a failed write opens the gate; nothing else changes |
| Store.NoteStore.File | quick-sticky/content.js:609-625 | the note is filed under its id, a new id at the end of the order; its owner key becomes active; it has an element iff open |
| Store.NoteStore.CreateNote | quick-sticky/content.js:583-625 | the given id or a fresh one; the note built from the arguments is filed; a save is scheduled iff `persist`; the write state is untouched |
| Store.NoteStore.MarkEdited | quick-sticky/content.js:796-798 | only the note's `updatedAt` changes, to the clock |
| Store.NoteStore.CloseNote | quick-sticky/content.js:800-817 | an unknown id changes nothing; a known note is marked closed and edited, stays in `notes` and in the order, loses its element; the pending timer is cancelled and, unless a write is running, the snapshot of the new notes over the old cache is written at once (else `pendingSave` is raised) |
| Store.NoteStore.MarkClosed | quick-sticky/content.js:805-812 | the note is marked closed and edited and loses its element; the notes invariant holds |
| Store.NoteStore.DeleteNote | quick-sticky/content.js:819-830 | the id leaves `notes`, the order and the page; every other note, the active keys and the pointer are unchanged; the pending timer is cancelled and, unless a write is running, the snapshot of the remaining notes over the old cache is written at once (else `pendingSave` is raised) |
| Store.NoteStore.ReopenNote | quick-sticky/content.js:422-442 | an unknown id changes nothing; a known note is marked open and edited with every other field kept, regains its element, and a save is scheduled |
| Store.NoteStore.OpenOrFocusNote | quick-sticky/content.js:388-420 | an open note is closed and saved at once, with all of `CloseNote`'s effects; a closed one is reopened with all of `ReopenNote`'s; a note not in memory is filed open from the stored list when found there (appended to the order when new, its owner key made active, a save scheduled, the write gate untouched), else nothing changes |
| Store.NoteStore.FileRecords | quick-sticky/content.js:1090-1111 | the notes become those restored from the normalized records, in order; the order gains the new ids in the order first met; the active keys gain the records' owner keys; exactly the open notes have an element; the migration flag is raised iff some record changed |
| Store.NoteStore.Restore | quick-sticky/content.js:1083-1111 | the cache is the loaded object (the empty object when missing) and the page's list is filed as `FileRecords` does |
| Store.NoteStore.Hydrate | quick-sticky/content.js:1083-1116 | the notes, the order, the active keys and the elements are restored from the page's list; without migration the cache is the loaded object and nothing is saved or scheduled; with migration the timer is cancelled and, unless a write is running, the snapshot over the loaded object is written at once |

## Left out

- The DOM and the UI: element construction, `appendItem`, `drawHistoryList`,
  `applyNotePosition`, `focusNote`, panel movement and styling, the note and
  panel drag handlers (and the `dragging` reset in `closeNote` and
  `deleteNote`), focus handling and `refreshHistoryPanel`. Only which notes
  have an element (`rendered`) is kept.
- The textarea `input` handler and the image drop handler. They are event
  plumbing over `markEdited` and `scheduleSave`. `FileReader` and
  `hasImageFile` go with them.
- Storage I/O. `storageGet` becomes the `loaded` parameter of `Hydrate`.
  `storageSet` becomes the appended entry of `writes`, whose settling is the
  `OnWriteResolved` / `OnWriteRejected` event. In the code `storageSet` always
  resolves. `OnWriteRejected` models the `finally` path for completeness.
- The network. `fetch` in `loadStyles` is left out. The oEmbed reply in
  `buildYouTubeItem` is a parameter.
- `createId` and `Date.now`. They are parameters: a fresh id, a list of fresh
  ids, and a clock reading.
- Store.NoteStore.Hydrate: one clock reading serves the whole hydration,
  where the code reads the clock per record.
- History.GetHistoryEntries: one fresh id serves every record that lacks an
  id, where the code mints one per record.
- History.GetHistoryEntries: one clock reading serves every record, where the
  code reads `Date.now` for each record that needs it.
- History.CardLine: cuts 56 Unicode characters, where `slice(0, 56)` cuts 56
  UTF-16 code units. A text with characters outside the Basic Multilingual
  Plane can be cut in the middle of a surrogate pair in the code.
- Editing.GetCurrentLine: positions count characters, where the caret
  `selectionStart` counts UTF-16 code units.
- Values.JsValue: an array holds items only, so arrays of numbers or strings
  cannot be represented. `Number([5])` is 5 in JavaScript, and
  `Number(["5"])` is 5 too. Stored notes only put item arrays in `items`.
- Values.FiniteOr: `Number()` of a digit string too long for a double gives
  `Infinity`, and so the fallback, in the code; the model reads every digit
  string as its exact integer.
- History.PeriodKey: the calendar function is total. A timestamp beyond the
  8.64e15 ms range of `Date` gives an invalid date in the code, and so the key
  "NaN-NaN-NaN".
- The textarea Enter handler (content.js:713-734) as a whole. Its steps on
  the text are modelled (`Editing.GetCurrentLine`, `YouTube.ParseYouTube`,
  `Editing.RemoveRange`). The caret move, the awaited `buildYouTubeItem`, the
  push of the item onto the note, and the `markEdited` and `scheduleSave`
  that follow are not.
- `new URL` is a pre-parsed record of host name, path, query `v` and
  `href`, or `None` when parsing throws.
- The local-time calendar. `toPeriodKey` and `toPeriodLabel` take the
  (year, month, day) a host function gives for a timestamp. The label is the
  same text as the key.
- `formatPage`, `formatDateTime`, `shortUrl`: display-only formatting.
- Pixel coordinates and timestamps are integers. `Number()` of a string reads
  optional white space, an optional sign and decimal digits only; exponents,
  hexadecimal and fractions are not modelled.
- Text.ToLowerAscii: lowers only the ASCII letters, where `toLowerCase`
  lowers all of Unicode.
- The `window.__quickStickyLoaded` guard, `loadStyles` and
  `quick-sticky/background.js`, a relay with no logic of its own:
  background.js is not part of this model.
- Item sanitising, quotas, thumbnail host checks, a `domain` field and
  context-invalidated handling. None of these exist in `content.js`; items
  pass through unchanged as an opaque sum type.
