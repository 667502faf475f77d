/** The page's note store and its persistence engine: the `notes` map (with the
    insertion order `Map` iterates in), the set of open note elements, the
    active storage keys, the cached stored object, the debounce timer, and the
    single-flight write gate (`saveInFlight`, `pendingSave`). The asynchronous
    parts of the program become events the runtime delivers to the store: a
    debounce timer firing, and a storage write settling. */
module Store {
  import opened Values
  import opened Records
  import opened Snapshot
  import opened Hydration
  import opened Invariants

  /** The arguments `createNote` is called with. An empty `id` or
      `storagePageKey` stands for a missing one; `None` for a missing number. */
  datatype NoteSpec = NoteSpec(
    id: string,
    x: Option<int>,
    y: Option<int>,
    text: string,
    items: seq<Item>,
    createdAt: Option<int>,
    updatedAt: Option<int>,
    isClosed: bool,
    storagePageKey: string)

  function OrElse(v: Option<int>, fallback: int): int {
    match v
    case Some(n) => n
    case None => fallback
  }

  /** The record the data half of `createNote` files under `noteId`: given
      fields are kept, missing ones default to the last pointer position, the
      clock, and the current page's key. */
  function NoteFromSpec(spec: NoteSpec, noteId: string, now: int, pointer: Point, pageKey: string): (n: Note)
    ensures n.id == noteId && n.text == spec.text && n.items == spec.items && n.isClosed == spec.isClosed
    ensures pageKey != "" ==> n.storagePageKey != ""
    ensures spec.storagePageKey != "" ==> n.storagePageKey == spec.storagePageKey
    ensures spec.storagePageKey == "" ==> n.storagePageKey == pageKey
    ensures spec.x == None ==> n.x == pointer.x
    ensures spec.y == None ==> n.y == pointer.y
    ensures spec.createdAt == None ==> n.createdAt == now
    ensures spec.updatedAt == None ==> n.updatedAt == now
    // given values are kept
    ensures spec.x.Some? ==> n.x == spec.x.value
    ensures spec.y.Some? ==> n.y == spec.y.value
    ensures spec.createdAt.Some? ==> n.createdAt == spec.createdAt.value
    ensures spec.updatedAt.Some? ==> n.updatedAt == spec.updatedAt.value
  {
    Note(noteId, OrElse(spec.x, pointer.x), OrElse(spec.y, pointer.y), spec.text, spec.items,
         OrElse(spec.createdAt, now), OrElse(spec.updatedAt, now), spec.isClosed,
         if spec.storagePageKey != "" then spec.storagePageKey else pageKey)
  }

  /** The arguments that re-create note `n` (`reopenNote`, `openOrFocusNote`,
      `hydrateFromStorage` all pass a note's own fields back). */
  function SpecOf(n: Note, isClosed: bool): NoteSpec {
    NoteSpec(n.id, Some(n.x), Some(n.y), n.text, n.items, Some(n.createdAt), Some(n.updatedAt),
             isClosed, n.storagePageKey)
  }

  /** Handing a filed note's own fields back to `createNote` files the same note. */
  lemma RecreateKeepsNote(n: Note, isClosed: bool, now: int, pointer: Point, pageKey: string)
    requires n.storagePageKey != ""
    ensures NoteFromSpec(SpecOf(n, isClosed), n.id, now, pointer, pageKey) == n.(isClosed := isClosed)
  {
  }


  /** The snapshot under construction after the first `i` notes went in. */
  ghost predicate SnapshotSoFar(snap: map<string, PageBucket>, cache: map<string, PageBucket>,
                                active: set<string>, ns: seq<Note>, i: nat, pageKey: string)
    requires i <= |ns|
  {
    && snap.Keys == cache.Keys + active
    && forall k :: k in snap ==> snap[k] == if k in active then Records(Bucket(ns[..i], k, pageKey)) else cache[k]
  }

  lemma BucketSnoc(ns: seq<Note>, i: nat, k: string, pageKey: string)
    requires i < |ns|
    ensures Bucket(ns[..i + 1], k, pageKey)
         == Bucket(ns[..i], k, pageKey) + (if OwnerKey(ns[i], pageKey) == k then [SerializeNote(ns[i], pageKey)] else [])
  {
    assert ns[..i + 1][..i] == ns[..i] && ns[..i + 1][i] == ns[i];
  }

  /** The first loop of `buildStorageSnapshot()`: a copy of the stored object in
      which every active key holds an empty list. */
  method EmptyActiveLists(cache: map<string, PageBucket>, active: set<string>)
    returns (snap: map<string, PageBucket>)
    ensures snap.Keys == cache.Keys + active
    ensures forall k :: k in snap ==> snap[k] == if k in active then Records([]) else cache[k]
  {
    snap := cache;
    var remaining := active;
    while remaining != {}
      invariant remaining <= active
      invariant snap.Keys == cache.Keys + (active - remaining)
      invariant forall k :: k in snap ==> snap[k] == if k in active - remaining then Records([]) else cache[k]
      decreases remaining
    {
      var k :| k in remaining;
      snap := snap[k := Records([])];
      remaining := remaining - {k};
    }
  }

  /** `buildStorageSnapshot()`: copy the stored object, give every active key an
      empty list, then append each note, in map order, to its owner's list. The
      source also adds each owner key to `activeStorageKeys` and afterwards
      re-checks every active key for a list; with every owner key already
      active (`createNote` sees to it) both are no-ops. */
  method BuildStorageSnapshot(cache: map<string, PageBucket>, active: set<string>, ns: seq<Note>,
                              pageKey: string)
    returns (snap: map<string, PageBucket>)
    requires forall i :: 0 <= i < |ns| ==> OwnerKey(ns[i], pageKey) in active
    ensures snap == SnapshotOf(cache, active, ns, pageKey)
  {
    snap := EmptyActiveLists(cache, active);
    assert SnapshotSoFar(snap, cache, active, ns, 0, pageKey);
    for i := 0 to |ns|
      invariant SnapshotSoFar(snap, cache, active, ns, i, pageKey)
    {
      var note := ns[i];
      var key := OwnerKey(note, pageKey);
      var list := if snap[key].Records? then snap[key].records else [];
      ghost var before := snap;
      snap := snap[key := Records(list + [SerializeNote(note, pageKey)])];
      forall k | k in snap
        ensures snap[k] == if k in active then Records(Bucket(ns[..i + 1], k, pageKey)) else before[k]
      {
        BucketSnoc(ns, i, k, pageKey);
      }
    }
    assert ns[..|ns|] == ns;
    assert forall k :: k in snap ==> snap[k] == SnapshotOf(cache, active, ns, pageKey)[k];
  }

  class NoteStore {
    /** `PAGE_KEY`: origin, path and query of the page. */
    const pageKey: string
    /** `lastPointer` */
    var pointer: Point
    /** `notes`, and the order its keys were first inserted in */
    var notes: map<string, Note>
    var order: seq<string>
    /** the ids with an element on the page (`noteEls`) */
    var rendered: set<string>
    /** `activeStorageKeys` */
    var activeKeys: set<string>
    /** `storageCache`: the stored object as last read or written */
    var storageCache: map<string, PageBucket>
    /** `saveTimer`, the timers the runtime still holds, and the next handle it hands out */
    var saveTimer: Option<nat>
    var pendingTimers: set<nat>
    var nextTimer: nat
    /** the write gate */
    var saveInFlight: bool
    var pendingSave: bool
    /** every object handed to `storageSet`, in order, and how many of those writes have settled */
    var writes: seq<map<string, PageBucket>>
    var settled: nat
    /** how many times `flushSave` was entered; for each write, that count when its snapshot was taken */
    ghost var requests: nat
    ghost var takenAt: seq<nat>
    /** the last write ended in failure */
    ghost var lastFailed: bool

    ghost predicate NotesValid()
      reads this`order, this`notes, this`activeKeys, this`rendered
    {
      NotesOk(pageKey, order, notes, activeKeys, rendered)
    }

    ghost predicate TimerValid()
      reads this`saveTimer, this`pendingTimers, this`nextTimer
    {
      TimerOk(saveTimer, pendingTimers, nextTimer)
    }

    ghost predicate FlightValid()
      reads this`saveInFlight, this`pendingSave, this`settled, this`writes, this`takenAt, this`requests,
        this`lastFailed
    {
      FlightOk(saveInFlight, pendingSave, settled, |writes|, takenAt, requests, lastFailed)
    }

    ghost predicate Valid()
      reads this
    {
      NotesValid() && TimerValid() && FlightValid()
    }

    /** The notes, their order, the elements on the page, the active keys and
        the pointer are as they were. */
    twostate predicate NotesUnchanged()
      reads this
    {
      && pointer == old(pointer) && notes == old(notes) && order == old(order)
      && rendered == old(rendered) && activeKeys == old(activeKeys)
    }

    /** The debounce timer state is as it was. */
    twostate predicate TimerUnchanged()
      reads this
    {
      saveTimer == old(saveTimer) && pendingTimers == old(pendingTimers) && nextTimer == old(nextTimer)
    }

    /** The cache, the write gate and the write log are as they were. */
    twostate predicate SyncUnchanged()
      reads this
    {
      && storageCache == old(storageCache) && saveInFlight == old(saveInFlight)
      && pendingSave == old(pendingSave) && writes == old(writes) && settled == old(settled)
      && requests == old(requests) && takenAt == old(takenAt) && lastFailed == old(lastFailed)
    }

    /** The page starts with no notes, the page's own key active, an empty cache,
        no timer and no write. */
    constructor(pageKey: string, pointer: Point)
      requires pageKey != ""
      ensures Valid()
      ensures this.pageKey == pageKey && this.pointer == pointer
      ensures notes == map[] && order == [] && rendered == {} && activeKeys == {pageKey}
      ensures storageCache == map[] && saveTimer == None && !saveInFlight && !pendingSave && writes == []
    {
      this.pageKey := pageKey;
      this.pointer := pointer;
      notes := map[];
      order := [];
      rendered := {};
      activeKeys := {pageKey};
      storageCache := map[];
      saveTimer := None;
      pendingTimers := {};
      nextTimer := 1;
      saveInFlight := false;
      pendingSave := false;
      writes := [];
      settled := 0;
      requests := 0;
      takenAt := [];
      lastFailed := false;
    }

    /** The `mousemove` listener records the pointer position. */
    method MovePointer(p: Point)
      requires Valid()
      modifies this
      ensures Valid()
      ensures pointer == p
      ensures notes == old(notes) && order == old(order) && rendered == old(rendered) && activeKeys == old(activeKeys)
      ensures TimerUnchanged() && SyncUnchanged()
    {
      pointer := p;
    }

    /** `buildStorageSnapshot()` on the current state. */
    method BuildSnapshot() returns (snap: map<string, PageBucket>)
      requires NotesValid()
      ensures snap == SnapshotOf(storageCache, activeKeys, Listed(order, notes), pageKey)
    {
      var ns := Listed(order, notes);
      forall i | 0 <= i < |ns| ensures OwnerKey(ns[i], pageKey) in activeKeys {
        assert ns[i] == notes[order[i]];
      }
      snap := BuildStorageSnapshot(storageCache, activeKeys, ns, pageKey);
    }
    /** `scheduleSave()`: drop the pending timer, if any, and start a new one. */
    method ScheduleSave()
      requires Valid()
      modifies this`saveTimer, this`pendingTimers, this`nextTimer
      ensures Valid()
      ensures saveTimer == Some(old(nextTimer)) && pendingTimers == {old(nextTimer)}
      ensures old(nextTimer) !in old(pendingTimers)
      ensures nextTimer > old(nextTimer)
      ensures NotesUnchanged() && storageCache == old(storageCache)
      ensures saveInFlight == old(saveInFlight) && pendingSave == old(pendingSave)
      ensures writes == old(writes) && settled == old(settled)
      ensures requests == old(requests) && takenAt == old(takenAt) && lastFailed == old(lastFailed)
    {
      if saveTimer.Some? {
        pendingTimers := pendingTimers - {saveTimer.value};
      }
      saveTimer := Some(nextTimer);
      pendingTimers := pendingTimers + {nextTimer};
      nextTimer := nextTimer + 1;
    }

    /** `flushSave()`. With a write running it only raises `pendingSave`;
        otherwise it closes the gate, takes a snapshot into the cache and starts
        writing it. The rest of the source's do-while loop runs when the write
        settles (`OnWriteResolved`, `OnWriteRejected`). */
    method FlushSave()
      requires Valid()
      modifies this
      ensures Valid()
      ensures requests == old(requests) + 1
      ensures saveInFlight
      ensures old(saveInFlight) ==>
        && pendingSave && writes == old(writes) && storageCache == old(storageCache)
        && takenAt == old(takenAt)
      ensures !old(saveInFlight) ==>
        && !pendingSave
        && storageCache == SnapshotOf(old(storageCache), activeKeys, Listed(order, notes), pageKey)
        && writes == old(writes) + [storageCache]
        && takenAt == old(takenAt) + [requests]
      ensures NotesUnchanged()
      ensures TimerUnchanged()
      ensures settled == old(settled)
    {
      requests := requests + 1;
      if saveInFlight {
        pendingSave := true;
        return;
      }
      saveInFlight := true;
      lastFailed := false;
      WriteRound();
    }

    /** One pass of the do-while body in `flushSave`: clear `pendingSave`, take
        the snapshot into the cache, and hand it to `storageSet`. */
    method WriteRound()
      requires NotesValid() && TimerValid()
      requires saveInFlight && !lastFailed && settled == |writes| && |takenAt| == |writes|
      requires Sorted(takenAt) && forall i :: 0 <= i < |takenAt| ==> takenAt[i] <= requests
      modifies this
      ensures Valid()
      ensures saveInFlight && !pendingSave
      ensures storageCache == SnapshotOf(old(storageCache), activeKeys, Listed(order, notes), pageKey)
      ensures writes == old(writes) + [storageCache]
      ensures takenAt == old(takenAt) + [requests]
      ensures requests == old(requests) && settled == old(settled) && lastFailed == old(lastFailed)
      ensures NotesUnchanged()
      ensures TimerUnchanged()
    {
      TakeSnapshot(takenAt, requests);
      pendingSave := false;
      var snap := BuildSnapshot();
      storageCache := snap;
      writes := writes + [snap];
      takenAt := takenAt + [requests];
    }

    /** `saveNow()`: cancel the pending timer, then flush. */
    method SaveNow()
      requires Valid()
      modifies this
      ensures Valid()
      ensures saveTimer == None && pendingTimers == {}
      ensures requests == old(requests) + 1 && saveInFlight
      ensures old(saveInFlight) ==> pendingSave && writes == old(writes) && storageCache == old(storageCache)
      ensures !old(saveInFlight) ==>
        && !pendingSave
        && storageCache == SnapshotOf(old(storageCache), activeKeys, Listed(order, notes), pageKey)
        && writes == old(writes) + [storageCache]
      ensures NotesUnchanged() && settled == old(settled)
    {
      if saveTimer.Some? {
        pendingTimers := pendingTimers - {saveTimer.value};
        saveTimer := None;
      }
      FlushSave();
    }

    /** The debounce timer `t` fires: forget it and flush. */
    method OnSaveTimer(t: nat)
      requires Valid()
      requires t in pendingTimers
      modifies this
      ensures Valid()
      ensures old(saveTimer) == Some(t)
      ensures saveTimer == None && pendingTimers == {}
      ensures requests == old(requests) + 1 && saveInFlight
      ensures !old(saveInFlight) ==> storageCache == SnapshotOf(old(storageCache), activeKeys, Listed(order, notes), pageKey) && writes == old(writes) + [storageCache]
      ensures old(saveInFlight) ==> pendingSave && writes == old(writes)
      ensures notes == old(notes) && order == old(order) && rendered == old(rendered) && activeKeys == old(activeKeys)
    {
      saveTimer := None;
      pendingTimers := {};
      FlushSave();
    }

    /** The running write resolved: the do-while loop goes round again, with a
        fresh snapshot, when a flush was asked for meanwhile; otherwise the gate
        opens (the `finally`). */
    method OnWriteResolved()
      requires Valid() && saveInFlight
      modifies this
      ensures Valid()
      ensures settled == old(settled) + 1
      ensures old(pendingSave) ==>
        && saveInFlight && !pendingSave
        && storageCache == SnapshotOf(old(storageCache), activeKeys, Listed(order, notes), pageKey)
        && writes == old(writes) + [storageCache]
      ensures !old(pendingSave) ==> !saveInFlight && writes == old(writes) && storageCache == old(storageCache)
      // no request is left behind: once the gate opens, the last write was
      // taken after the last flush request
      ensures !saveInFlight ==> requests == Last(takenAt)
      ensures requests == old(requests)
      ensures NotesUnchanged()
      ensures TimerUnchanged()
    {
      settled := settled + 1;
      if pendingSave {
        WriteRound();
      } else {
        saveInFlight := false;
      }
    }

    /** The running write failed: the loop is left and the `finally` opens the
        gate; `pendingSave` stays as it was. */
    method OnWriteRejected()
      requires Valid() && saveInFlight
      modifies this
      ensures Valid()
      ensures !saveInFlight && settled == old(settled) + 1
      ensures pendingSave == old(pendingSave) && writes == old(writes) && storageCache == old(storageCache)
      ensures requests == old(requests)
      ensures NotesUnchanged()
      ensures TimerUnchanged()
    {
      settled := settled + 1;
      saveInFlight := false;
      lastFailed := true;
    }

    /** `notes.set(note.id, note)` as `createNote` does it: the owner key becomes
        active, the note is filed (a known id keeps its place in the order) and
        its element is replaced, or removed for a closed note. */
    method File(note: Note)
      requires NotesValid() && note.id != "" && note.storagePageKey != ""
      modifies this`activeKeys, this`order, this`notes, this`rendered
      ensures NotesValid()
      ensures notes == old(notes)[note.id := note]
      ensures order == if note.id in old(notes) then old(order) else old(order) + [note.id]
      ensures activeKeys == old(activeKeys) + {note.storagePageKey}
      ensures rendered == if note.isClosed then old(rendered) - {note.id} else old(rendered) + {note.id}
    {
      FileKeepsNotesOk(pageKey, order, notes, activeKeys, rendered, note);
      var order' := if note.id in notes then order else order + [note.id];
      var rendered' := if note.isClosed then rendered - {note.id} else rendered + {note.id};
      activeKeys, order, notes, rendered := activeKeys + {note.storagePageKey}, order', notes[note.id := note], rendered';
    }

    /** The data half of `createNote(spec)`: reuse the given id or mint
        `freshId`, fill the defaults, make the owner key active, file the note,
        replace its element (none for a closed note) and, when `persist`,
        schedule a save. */
    method CreateNote(spec: NoteSpec, persist: bool, now: int, freshId: string) returns (noteId: string)
      requires Valid() && freshId != ""
      modifies this`activeKeys, this`order, this`notes, this`rendered
      modifies this`saveTimer, this`pendingTimers, this`nextTimer
      ensures Valid()
      ensures noteId == if spec.id != "" then spec.id else freshId
      ensures notes == old(notes)[noteId := NoteFromSpec(spec, noteId, now, pointer, pageKey)]
      ensures order == if noteId in old(notes) then old(order) else old(order) + [noteId]
      ensures activeKeys == old(activeKeys) + {notes[noteId].storagePageKey}
      ensures rendered == if spec.isClosed then old(rendered) - {noteId} else old(rendered) + {noteId}
      ensures persist ==> saveTimer.Some? && pendingTimers == {saveTimer.value}
      ensures !persist ==> TimerUnchanged()
      ensures pointer == old(pointer) && SyncUnchanged()
    {
      noteId := if spec.id != "" then spec.id else freshId;
      var note := NoteFromSpec(spec, noteId, now, pointer, pageKey);
      File(note);
      assert note.id == noteId && notes[noteId] == note && note.isClosed == spec.isClosed;
      if persist {
        ScheduleSave();
      }
    }

    /** `markEdited(note)` on the note filed under `id`, if any. */
    method MarkEdited(id: string, now: int)
      requires Valid()
      modifies this
      ensures Valid()
      ensures notes == if id in old(notes) then old(notes)[id := old(notes)[id].(updatedAt := now)] else old(notes)
      ensures pointer == old(pointer) && order == old(order) && rendered == old(rendered)
      ensures activeKeys == old(activeKeys) && TimerUnchanged() && SyncUnchanged()
    {
      if id in notes {
        var note := notes[id].(updatedAt := now);
        FileKeepsNotesOk(pageKey, order, notes, activeKeys, rendered, note);
        notes := notes[id := note];
      }
    }

    /** `closeNote(id)`: an unknown id changes nothing; otherwise the note is
        marked closed and edited, stays in `notes`, loses its element, and is
        saved at once. */
    method CloseNote(id: string, now: int)
      requires Valid()
      modifies this
      ensures Valid()
      ensures id !in old(notes) ==> NotesUnchanged() && TimerUnchanged() && SyncUnchanged()
      ensures id in old(notes) ==>
        && notes == old(notes)[id := old(notes)[id].(isClosed := true, updatedAt := now)]
        && order == old(order) && rendered == old(rendered) - {id} && activeKeys == old(activeKeys)
        && pointer == old(pointer)
        && saveTimer == None && pendingTimers == {} && requests == old(requests) + 1 && saveInFlight
        && (old(saveInFlight) ==> pendingSave && writes == old(writes) && storageCache == old(storageCache))
        && (!old(saveInFlight) ==>
              && !pendingSave
              && storageCache == SnapshotOf(old(storageCache), activeKeys, Listed(order, notes), pageKey)
              && writes == old(writes) + [storageCache])
    {
      if id !in notes {
        return;
      }
      MarkClosed(id, now);
      SaveNow();
    }

    /** The first half of `closeNote` on a filed note: mark it closed and
        edited, and remove its element. */
    method MarkClosed(id: string, now: int)
      requires NotesValid() && id in notes
      modifies this`notes, this`rendered
      ensures NotesValid()
      ensures notes == old(notes)[id := old(notes)[id].(isClosed := true, updatedAt := now)]
      ensures rendered == old(rendered) - {id}
    {
      var note := notes[id].(isClosed := true, updatedAt := now);
      FileKeepsNotesOk(pageKey, order, notes, activeKeys, rendered, note);
      notes := notes[id := note];
      rendered := rendered - {id};
    }

    /** `deleteNote(id)`: the note and its element go, every other note stays as
        it was, and a save runs at once (also for an unknown id). */
    method DeleteNote(id: string)
      requires Valid()
      modifies this
      ensures Valid()
      ensures notes == old(notes) - {id}
      ensures order == Without(old(order), id) && rendered == old(rendered) - {id}
      ensures activeKeys == old(activeKeys) && pointer == old(pointer)
      ensures saveTimer == None && pendingTimers == {} && requests == old(requests) + 1 && saveInFlight
      ensures old(saveInFlight) ==> pendingSave && writes == old(writes) && storageCache == old(storageCache)
      ensures !old(saveInFlight) ==>
        && !pendingSave
        && storageCache == SnapshotOf(old(storageCache), activeKeys, Listed(order, notes), pageKey)
        && writes == old(writes) + [storageCache]
    {
      DropKeepsNotesOk(pageKey, order, notes, activeKeys, rendered, id);
      rendered := rendered - {id};
      notes := notes - {id};
      order := Without(order, id);
      SaveNow();
    }

    /** `reopenNote(id)`: an unknown id changes nothing; otherwise the note is
        marked open and edited and filed again through `createNote` with its
        own fields, which keeps everything but `isClosed` and `updatedAt`, gives
        it an element back and schedules a save. */
    method ReopenNote(id: string, now: int)
      requires Valid()
      modifies this
      ensures Valid()
      ensures id !in old(notes) ==> NotesUnchanged() && TimerUnchanged() && SyncUnchanged()
      ensures id in old(notes) ==>
        && notes == old(notes)[id := old(notes)[id].(isClosed := false, updatedAt := now)]
        && order == old(order) && rendered == old(rendered) + {id} && activeKeys == old(activeKeys)
        && pointer == old(pointer)
        && saveTimer.Some? && pendingTimers == {saveTimer.value} && SyncUnchanged()
    {
      if id !in notes {
        return;
      }
      // the source sets `isClosed` and `updatedAt` on the filed object first;
      // `createNote` then files a copy with those fields
      var note := notes[id].(isClosed := false, updatedAt := now);
      RecreateKeepsNote(note, false, now, pointer, pageKey);
      var _ := CreateNote(SpecOf(note, false), true, now, id);
    }

    /** `openOrFocusNote(id, storagePageKey)`, the history list's click: an
        open note is closed, a closed (or hidden) one reopened; a note not in
        memory is looked up in the stored list of `storagePageKey` and, when
        found, filed open and saved. */
    method OpenOrFocusNote(id: string, storagePageKey: string, now: int, freshId: string)
      requires Valid() && freshId != ""
      modifies this
      ensures Valid()
      // an open note is closed and saved at once
      ensures id in old(notes) && !old(notes)[id].isClosed ==>
        && notes == old(notes)[id := old(notes)[id].(isClosed := true, updatedAt := now)]
        && order == old(order) && rendered == old(rendered) - {id} && activeKeys == old(activeKeys)
        && pointer == old(pointer)
        && saveTimer == None && pendingTimers == {} && requests == old(requests) + 1 && saveInFlight
        && (old(saveInFlight) ==> pendingSave && writes == old(writes) && storageCache == old(storageCache))
        && (!old(saveInFlight) ==>
              && !pendingSave
              && storageCache == SnapshotOf(old(storageCache), activeKeys, Listed(order, notes), pageKey)
              && writes == old(writes) + [storageCache])
      // a closed note is reopened and a save scheduled
      ensures id in old(notes) && old(notes)[id].isClosed ==>
        && notes == old(notes)[id := old(notes)[id].(isClosed := false, updatedAt := now)]
        && order == old(order) && rendered == old(rendered) + {id} && activeKeys == old(activeKeys)
        && pointer == old(pointer)
        && saveTimer.Some? && pendingTimers == {saveTimer.value} && SyncUnchanged()
      // a note only in storage is filed open and a save scheduled
      ensures id !in old(notes) ==>
        match FindStoredNote(old(storageCache), storagePageKey, id, now, freshId, old(pointer))
        case None => NotesUnchanged() && TimerUnchanged() && SyncUnchanged()
        case Some(r) =>
          var k := if r.note.id != "" then r.note.id else freshId;
          && notes == old(notes)[k := NoteFromSpec(SpecOf(r.note, false), k, now, old(pointer), pageKey)]
          && order == (if k in old(notes) then old(order) else old(order) + [k])
          && rendered == old(rendered) + {k}
          && activeKeys == old(activeKeys) + {notes[k].storagePageKey}
          && pointer == old(pointer)
          && saveTimer.Some? && pendingTimers == {saveTimer.value} && SyncUnchanged()
    {
      if id in notes {
        var note := notes[id];
        if !note.isClosed && id in rendered {
          CloseNote(id, now);
          return;
        }
        if note.isClosed || id !in rendered {
          ReopenNote(id, now);
          return;
        }
        return;
      }
      var stored := FindStoredNote(storageCache, storagePageKey, id, now, freshId, pointer);
      if stored.None? {
        return;
      }
      var _ := CreateNote(SpecOf(stored.value.note, false), true, now, freshId);
    }

    /** The loop of `hydrateFromStorage`: normalize each record of `existing`
        and file it as `createNote` does without saving; report whether any
        record had to be normalized. */
    method FileRecords(existing: seq<StoredRecord>, now: int, freshIds: seq<string>)
      returns (needsMigration: bool)
      requires NotesValid()
      requires forall i :: 0 <= i < |freshIds| ==> freshIds[i] != ""
      requires |existing| <= |freshIds|
      modifies this`activeKeys, this`order, this`notes, this`rendered
      ensures NotesValid()
      ensures notes == Restored(old(notes), ReviveAll(existing, pageKey, now, freshIds, pointer))
      ensures needsMigration <==> ChangedAmong(ReviveAll(existing, pageKey, now, freshIds, pointer))
      ensures order == old(order) + FirstSeen(old(notes).Keys, ReviveAll(existing, pageKey, now, freshIds, pointer))
      ensures activeKeys == old(activeKeys) + RevivedKeys(ReviveAll(existing, pageKey, now, freshIds, pointer))
      ensures rendered == set id | id in notes && !notes[id].isClosed
    {
      ghost var revived := ReviveAll(existing, pageKey, now, freshIds, pointer);
      needsMigration := false;
      var i := 0;
      while i < |existing|
        invariant 0 <= i <= |existing|
        invariant NotesValid()
        invariant notes == Restored(old(notes), revived[..i])
        invariant needsMigration <==> ChangedAmong(revived[..i])
        invariant order == old(order) + FirstSeen(old(notes).Keys, revived[..i])
        invariant activeKeys == old(activeKeys) + RevivedKeys(revived[..i])
      {
        var normalized := NormalizeStoredNote(existing[i], pageKey, now, freshIds[i], pointer);
        assert normalized == revived[i];
        PrefixSnoc(revived, i);
        RestoredSnoc(old(notes), revived[..i], normalized);
        FileStep(old(notes), old(order), old(activeKeys), revived[..i], normalized, order, activeKeys);
        if normalized.changed {
          needsMigration := true;
        }
        // the coordinates are numbers already, so `finiteOr(normalized.x, …)`
        // passes them through; the id is never empty
        var n := normalized.note;
        RecreateKeepsNote(n, n.isClosed, now, pointer, pageKey);
        File(NoteFromSpec(SpecOf(n, n.isClosed), n.id, now, pointer, pageKey));
        i := i + 1;
      }
      assert revived[..i] == revived;
    }

    /** `hydrateFromStorage()`: cache the stored object, file every record of
        the page's list through `createNote` without saving, and save once when
        any record had to be normalized. `loaded` is what `storageGet` gave,
        `freshIds` the ids `createId()` would mint, one per record. */
    method Hydrate(loaded: Option<map<string, PageBucket>>, now: int, freshIds: seq<string>)
      requires Valid()
      requires forall i :: 0 <= i < |freshIds| ==> freshIds[i] != ""
      requires |StoredList(StoredObject(loaded), pageKey)| <= |freshIds|
      modifies this
      ensures Valid()
      ensures pointer == old(pointer)
      ensures notes == Restored(old(notes), Revived(loaded, pageKey, now, freshIds, old(pointer)))
      ensures order == old(order) + FirstSeen(old(notes).Keys, Revived(loaded, pageKey, now, freshIds, old(pointer)))
      ensures activeKeys == old(activeKeys) + RevivedKeys(Revived(loaded, pageKey, now, freshIds, old(pointer)))
      ensures rendered == set id | id in notes && !notes[id].isClosed
      // nothing had to be normalized: the stored object is cached and nothing is saved
      ensures !ChangedAmong(Revived(loaded, pageKey, now, freshIds, old(pointer))) ==>
        && storageCache == StoredObject(loaded) && TimerUnchanged()
        && requests == old(requests) && writes == old(writes) && saveInFlight == old(saveInFlight)
      // a record had to be normalized: the migrated notes are saved at once
      ensures ChangedAmong(Revived(loaded, pageKey, now, freshIds, old(pointer))) ==>
        requests == old(requests) + 1 && saveTimer == None && saveInFlight
      ensures ChangedAmong(Revived(loaded, pageKey, now, freshIds, old(pointer))) && !old(saveInFlight) ==>
        && storageCache == SnapshotOf(StoredObject(loaded), activeKeys, Listed(order, notes), pageKey)
        && writes == old(writes) + [storageCache]
    {
      var needsMigration := Restore(loaded, now, freshIds);
      if needsMigration {
        SaveNow();
      }
    }

    /** The first half of `hydrateFromStorage()`: cache the stored object and
        file the records of the page's list. */
    method Restore(loaded: Option<map<string, PageBucket>>, now: int, freshIds: seq<string>)
      returns (needsMigration: bool)
      requires NotesValid()
      requires forall i :: 0 <= i < |freshIds| ==> freshIds[i] != ""
      requires |StoredList(StoredObject(loaded), pageKey)| <= |freshIds|
      modifies this`storageCache, this`activeKeys, this`order, this`notes, this`rendered
      ensures NotesValid()
      ensures storageCache == StoredObject(loaded)
      ensures notes == Restored(old(notes), Revived(loaded, pageKey, now, freshIds, pointer))
      ensures order == old(order) + FirstSeen(old(notes).Keys, Revived(loaded, pageKey, now, freshIds, pointer))
      ensures activeKeys == old(activeKeys) + RevivedKeys(Revived(loaded, pageKey, now, freshIds, pointer))
      ensures rendered == set id | id in notes && !notes[id].isClosed
      ensures needsMigration <==> ChangedAmong(Revived(loaded, pageKey, now, freshIds, pointer))
    {
      storageCache := StoredObject(loaded);
      needsMigration := FileRecords(StoredList(storageCache, pageKey), now, freshIds);
    }
  }
}
