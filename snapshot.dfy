/** The value `buildStorageSnapshot` hands to storage: the whole stored object,
 *  with the list of every active page key rebuilt from the notes in memory and
 *  every other key copied forward. */
module Snapshot {
  import opened Values
  import opened Records

  /** The notes in `Map` iteration order (`notes.values()`). */
  function Listed(order: seq<string>, notes: map<string, Note>): (ns: seq<Note>)
    requires forall i :: 0 <= i < |order| ==> order[i] in notes
    ensures |ns| == |order| && forall i :: 0 <= i < |order| ==> ns[i] == notes[order[i]]
  {
    seq(|order|, i requires 0 <= i < |order| => notes[order[i]])
  }

  /** The store's standing invariant on its notes: `order` lists every id once,
      each note sits under its own non-empty id, and its non-empty owner key is
      among the active keys (`createNote` adds it there). */
  ghost predicate WellFiled(order: seq<string>, notes: map<string, Note>, active: set<string>) {
    && (forall i, j :: 0 <= i < j < |order| ==> order[i] != order[j])
    && (forall i :: 0 <= i < |order| ==> order[i] in notes)
    && (forall id :: id in notes ==> id in order)
    && (forall id :: id in notes ==> notes[id].id == id && id != "")
    && (forall id :: id in notes ==> notes[id].storagePageKey != "" && notes[id].storagePageKey in active)
  }

  /** The list written under page key `k`: the notes filed under `k`,
      serialized, in map order. */
  function Bucket(ns: seq<Note>, k: string, pageKey: string): seq<StoredRecord> {
    if ns == [] then []
    else
      var last := ns[|ns| - 1];
      Bucket(ns[..|ns| - 1], k, pageKey)
        + (if OwnerKey(last, pageKey) == k then [SerializeNote(last, pageKey)] else [])
  }

  /** The snapshot for stored object `cache`, active keys `active` and the
      notes `ns` in map order: every active key holds its rebuilt list (empty
      when no note is filed there any more), every other key keeps its value. */
  function SnapshotOf(cache: map<string, PageBucket>, active: set<string>, ns: seq<Note>,
                      pageKey: string): map<string, PageBucket>
  {
    map k | k in cache.Keys + active :: if k in active then Records(Bucket(ns, k, pageKey)) else cache[k]
  }

  /** How many records in `rs` carry the id `id`. */
  function CountId(rs: seq<StoredRecord>, id: string): nat {
    if rs == [] then 0
    else CountId(rs[..|rs| - 1], id) + (if rs[|rs| - 1].id == Str(id) then 1 else 0)
  }

  lemma {:induction false} CountIdAppend(a: seq<StoredRecord>, b: seq<StoredRecord>, id: string)
    ensures CountId(a + b, id) == CountId(a, id) + CountId(b, id)
  {
    if b != [] {
      assert (a + b)[..|a + b| - 1] == a + b[..|b| - 1];
      CountIdAppend(a, b[..|b| - 1], id);
    } else {
      assert a + b == a;
    }
  }

  ghost predicate FiledAt(ns: seq<Note>, id: string, k: string, pageKey: string) {
    exists i :: 0 <= i < |ns| && ns[i].id == id && OwnerKey(ns[i], pageKey) == k
  }

  /** With distinct ids, the list for `k` holds a record with id `id` exactly
      once if that note is filed under `k`, and not at all otherwise. */
  lemma {:induction false} BucketCount(ns: seq<Note>, k: string, pageKey: string, id: string)
    requires forall i, j :: 0 <= i < j < |ns| ==> ns[i].id != ns[j].id
    ensures CountId(Bucket(ns, k, pageKey), id) == if FiledAt(ns, id, k, pageKey) then 1 else 0
  {
    if ns != [] {
      var init, last := ns[..|ns| - 1], ns[|ns| - 1];
      BucketCount(init, k, pageKey, id);
      var tail := if OwnerKey(last, pageKey) == k then [SerializeNote(last, pageKey)] else [];
      CountIdAppend(Bucket(init, k, pageKey), tail, id);
      assert tail != [] ==> tail[..0] == [];
      if last.id == id && OwnerKey(last, pageKey) == k {
        assert FiledAt(ns, id, k, pageKey);
        forall i | 0 <= i < |init|
          ensures init[i].id != id
        {
          assert init[i] == ns[i];
        }
      } else {
        assert FiledAt(ns, id, k, pageKey) == FiledAt(init, id, k, pageKey) by {
          if FiledAt(ns, id, k, pageKey) {
            var i :| 0 <= i < |ns| && ns[i].id == id && OwnerKey(ns[i], pageKey) == k;
            assert i < |init| && init[i] == ns[i];
          }
          if FiledAt(init, id, k, pageKey) {
            var i :| 0 <= i < |init| && init[i].id == id && OwnerKey(init[i], pageKey) == k;
            assert ns[i] == init[i];
          }
        }
      }
    }
  }

  /** Every record of the list for `k` is the serialized form of a note filed
      under `k`. */
  lemma {:induction false} BucketMembers(ns: seq<Note>, k: string, pageKey: string, r: StoredRecord)
    requires r in Bucket(ns, k, pageKey)
    ensures exists i :: 0 <= i < |ns| && r == SerializeNote(ns[i], pageKey) && OwnerKey(ns[i], pageKey) == k
  {
    var init, last := ns[..|ns| - 1], ns[|ns| - 1];
    if r in Bucket(init, k, pageKey) {
      BucketMembers(init, k, pageKey, r);
      var i :| 0 <= i < |init| && r == SerializeNote(init[i], pageKey) && OwnerKey(init[i], pageKey) == k;
      assert ns[i] == init[i];
    } else {
      assert r == SerializeNote(ns[|ns| - 1], pageKey) && OwnerKey(last, pageKey) == k;
    }
  }

  lemma ListedDistinct(order: seq<string>, notes: map<string, Note>, active: set<string>)
    requires WellFiled(order, notes, active)
    ensures forall i, j :: 0 <= i < j < |order| ==> Listed(order, notes)[i].id != Listed(order, notes)[j].id
  {
  }

  lemma ListedFiledAt(order: seq<string>, notes: map<string, Note>, active: set<string>,
                      id: string, k: string, pageKey: string)
    requires WellFiled(order, notes, active)
    ensures FiledAt(Listed(order, notes), id, k, pageKey)
        <==> id in notes && notes[id].storagePageKey == k
  {
    var ns := Listed(order, notes);
    if id in notes && notes[id].storagePageKey == k {
      var i :| 0 <= i < |order| && order[i] == id;
      assert ns[i].id == id && OwnerKey(ns[i], pageKey) == k;
    }
  }

  /** Snapshot shape: each note is written exactly once, in the list of its
      owner key; the list of every other active key holds no record with its
      id, and an id that is no longer in `notes` (a deleted note) appears in no
      active list. Keys that are not active are copied unchanged. */
  lemma SnapshotPlacesEachNoteOnce(cache: map<string, PageBucket>, active: set<string>,
                                   order: seq<string>, notes: map<string, Note>,
                                   pageKey: string, id: string, k: string)
    requires WellFiled(order, notes, active)
    ensures var snap := SnapshotOf(cache, active, Listed(order, notes), pageKey);
      && snap.Keys == cache.Keys + active
      && (k in cache && k !in active ==> snap[k] == cache[k])
      && (k in active ==>
            && snap[k].Records?
            && CountId(snap[k].records, id) == if id in notes && notes[id].storagePageKey == k then 1 else 0)
  {
    ListedDistinct(order, notes, active);
    BucketCount(Listed(order, notes), k, pageKey, id);
    ListedFiledAt(order, notes, active, id, k, pageKey);
  }

  /** Reading a note back from a snapshot: `findStoredNote` under the note's
      owner key returns the note itself, not flagged for migration. */
  lemma SnapshotLookup(cache: map<string, PageBucket>, active: set<string>,
                       order: seq<string>, notes: map<string, Note>, pageKey: string,
                       id: string, now: int, freshId: string, pointer: Point)
    requires WellFiled(order, notes, active)
    requires id in notes
    ensures FindStoredNote(SnapshotOf(cache, active, Listed(order, notes), pageKey),
                           notes[id].storagePageKey, id, now, freshId, pointer)
         == Some(Normalized(notes[id], false))
  {
    var ns := Listed(order, notes);
    var k := notes[id].storagePageKey;
    var snap := SnapshotOf(cache, active, ns, pageKey);
    var list := Bucket(ns, k, pageKey);
    assert StoredList(snap, k) == list;
    SnapshotPlacesEachNoteOnce(cache, active, order, notes, pageKey, id, k);
    CountPositive(list, id);
    match FirstWithId(list, id)
    case None =>
      assert false;
    case Some(i) =>
      BucketMembers(ns, k, pageKey, list[i]);
      var j :| 0 <= j < |ns| && list[i] == SerializeNote(ns[j], pageKey) && OwnerKey(ns[j], pageKey) == k;
      assert ns[j] == notes[order[j]] && order[j] == id;
      NormalizeSerialized(notes[id], pageKey, k, now, freshId, pointer);
  }

  lemma {:induction false} CountPositive(rs: seq<StoredRecord>, id: string)
    requires CountId(rs, id) > 0
    ensures exists j :: 0 <= j < |rs| && rs[j].id == Str(id)
  {
    if rs[|rs| - 1].id != Str(id) {
      CountPositive(rs[..|rs| - 1], id);
      var j :| 0 <= j < |rs| - 1 && rs[..|rs| - 1][j].id == Str(id);
      assert rs[j] == rs[..|rs| - 1][j];
    }
  }

  /** Loading a snapshot back never asks for a migration: every record of an
      active list normalizes with `changed == false`. */
  lemma SnapshotNeedsNoMigration(cache: map<string, PageBucket>, active: set<string>,
                                 order: seq<string>, notes: map<string, Note>, pageKey: string,
                                 k: string, r: StoredRecord, fallbackPageKey: string,
                                 now: int, freshId: string, pointer: Point)
    requires WellFiled(order, notes, active)
    requires k in active && r in SnapshotOf(cache, active, Listed(order, notes), pageKey)[k].records
    ensures !NormalizeStoredNote(r, fallbackPageKey, now, freshId, pointer).changed
  {
    var ns := Listed(order, notes);
    BucketMembers(ns, k, pageKey, r);
    var i :| 0 <= i < |ns| && r == SerializeNote(ns[i], pageKey) && OwnerKey(ns[i], pageKey) == k;
    assert ns[i] == notes[order[i]];
    NormalizeSerialized(ns[i], pageKey, fallbackPageKey, now, freshId, pointer);
  }

  /** The list of an active key is rebuilt from memory alone: every record it
      holds belongs to a note in `notes`. A record stored under that key whose
      note was never loaded (a page activated by opening one of its notes from
      the history list) is therefore not carried into the next write. */
  lemma ActiveListHoldsOnlyLoadedNotes(cache: map<string, PageBucket>, active: set<string>,
                                       order: seq<string>, notes: map<string, Note>,
                                       pageKey: string, k: string)
    requires WellFiled(order, notes, active)
    requires k in active
    ensures forall r :: r in SnapshotOf(cache, active, Listed(order, notes), pageKey)[k].records ==>
              exists id :: id in notes && r.id == Str(id)
  {
    var ns := Listed(order, notes);
    forall r | r in SnapshotOf(cache, active, ns, pageKey)[k].records
      ensures exists id :: id in notes && r.id == Str(id)
    {
      BucketMembers(ns, k, pageKey, r);
      var i :| 0 <= i < |ns| && r == SerializeNote(ns[i], pageKey) && OwnerKey(ns[i], pageKey) == k;
      assert ns[i] == notes[order[i]] && r.id == Str(order[i]);
    }
  }

  /** Opening note `b` of page `k` from the history list activates `k` with
      only `b` in memory; the next snapshot then writes `k`'s list as `[b]`,
      and the record `a` stored beside it is gone. */
  lemma OpeningStoredNoteDropsItsNeighbours(a: StoredRecord, b: Note, p: string, k: string)
    requires b.storagePageKey == k && k != ""
    ensures var snap := SnapshotOf(map[k := Records([a, SerializeNote(b, p)])], {p, k}, [b], p);
      && snap[k] == Records([SerializeNote(b, p)])
      && (a != SerializeNote(b, p) ==> a !in snap[k].records)
  {
    assert [b][..0] == [];
    assert Bucket([b], k, p) == [SerializeNote(b, p)];
    assert Bucket([b], p, p) == if p == k then [SerializeNote(b, p)] else [];
  }

  /** A note created before hydration has read storage is saved from the
      empty initial cache: the object written holds the current page's new
      note and nothing else, so every stored page is dropped from it. */
  lemma SnapshotBeforeHydrationHoldsOnlyNewNote(n: Note, p: string)
    requires n.storagePageKey == p && p != ""
    ensures SnapshotOf(map[], {p}, [n], p) == map[p := Records([SerializeNote(n, p)])]
  {
    assert [n][..0] == [];
    var snap := SnapshotOf(map[], {p}, [n], p);
    assert snap.Keys == {p};
    assert snap[p] == Records(Bucket([n], p, p)) && Bucket([n], p, p) == [SerializeNote(n, p)];
  }
}
