/** What `hydrateFromStorage` rebuilds from the stored list of the current page:
    each record is normalized and filed in turn, so a later record with an id
    already seen replaces the earlier one, and a save is asked for when any
    record had to be normalized. */
module Hydration {
  import opened Values
  import opened Records
  import opened Snapshot
  import opened Invariants

  /** The stored object `storageGet` read back: `None` when it was missing or
      not an object, which reads as the empty object. */
  function StoredObject(loaded: Option<map<string, PageBucket>>): map<string, PageBucket> {
    match loaded
    case Some(m) => m
    case None => map[]
  }

  /** Every record of `rs` normalized against the page's key; record `i` gets
      the `i`-th id `createId()` would mint. */
  function ReviveAll(rs: seq<StoredRecord>, pageKey: string, now: int, freshIds: seq<string>,
                     pointer: Point): (ns: seq<Normalized>)
    requires |rs| <= |freshIds|
    ensures |ns| == |rs|
    ensures forall i :: 0 <= i < |rs| ==> ns[i] == NormalizeStoredNote(rs[i], pageKey, now, freshIds[i], pointer)
  {
    seq(|rs|, i requires 0 <= i < |rs| => NormalizeStoredNote(rs[i], pageKey, now, freshIds[i], pointer))
  }

  /** The normalized records of the page's list in the stored object
      `storageGet` gave. */
  function Revived(loaded: Option<map<string, PageBucket>>, pageKey: string, now: int,
                   freshIds: seq<string>, pointer: Point): seq<Normalized>
    requires |StoredList(StoredObject(loaded), pageKey)| <= |freshIds|
  {
    ReviveAll(StoredList(StoredObject(loaded), pageKey), pageKey, now, freshIds, pointer)
  }

  /** Normalizing one more record appends its result. */
  lemma ReviveSnoc(rs: seq<StoredRecord>, r: StoredRecord, pageKey: string, now: int,
                   freshIds: seq<string>, pointer: Point)
    requires |rs| + 1 <= |freshIds|
    ensures ReviveAll(rs + [r], pageKey, now, freshIds, pointer)
         == ReviveAll(rs, pageKey, now, freshIds, pointer) + [NormalizeStoredNote(r, pageKey, now, freshIds[|rs|], pointer)]
  {
    var whole := ReviveAll(rs + [r], pageKey, now, freshIds, pointer);
    var init := ReviveAll(rs, pageKey, now, freshIds, pointer);
    forall i | 0 <= i < |rs| ensures whole[i] == init[i] {
      assert (rs + [r])[i] == rs[i];
    }
    assert (rs + [r])[|rs|] == r;
  }

  /** The notes after filing the normalized records `ns`, in order, on top of `base`. */
  function Restored(base: map<string, Note>, ns: seq<Normalized>): map<string, Note> {
    if ns == [] then base
    else
      var n := ns[|ns| - 1].note;
      Restored(base, ns[..|ns| - 1])[n.id := n]
  }

  /** Filing one more record files its note over what was there. */
  lemma RestoredSnoc(base: map<string, Note>, ns: seq<Normalized>, n: Normalized)
    ensures Restored(base, ns + [n]) == Restored(base, ns)[n.note.id := n.note]
    ensures ChangedAmong(ns + [n]) <==> ChangedAmong(ns) || n.changed
  {
    assert (ns + [n])[..|ns|] == ns;
    if ChangedAmong(ns) {
      var j :| 0 <= j < |ns| && ns[j].changed;
      assert (ns + [n])[j] == ns[j];
    }
    if ChangedAmong(ns + [n]) && !n.changed {
      var j :| 0 <= j < |ns| + 1 && (ns + [n])[j].changed;
      assert j < |ns| && ns[j] == (ns + [n])[j];
    }
    if n.changed {
      assert (ns + [n])[|ns|] == n;
    }
  }

  lemma PrefixSnoc(ns: seq<Normalized>, i: nat)
    requires i < |ns|
    ensures ns[..i + 1] == ns[..i] + [ns[i]]
  {
  }

  /** One of `ns` is a note with id `id`. */
  ghost predicate IdAmong(ns: seq<Normalized>, id: string) {
    exists j :: 0 <= j < |ns| && ns[j].note.id == id
  }

  /** One of `ns` had to be normalized (`needsMigration`). */
  ghost predicate ChangedAmong(ns: seq<Normalized>) {
    exists j :: 0 <= j < |ns| && ns[j].changed
  }

  /** The restored notes are those of `base` plus one per id met in the records. */
  lemma {:induction false} RestoredKeys(base: map<string, Note>, ns: seq<Normalized>, id: string)
    ensures id in Restored(base, ns) <==> id in base || IdAmong(ns, id)
  {
    if ns != [] {
      var init := ns[..|ns| - 1];
      RestoredKeys(base, init, id);
      if IdAmong(ns, id) && ns[|ns| - 1].note.id != id {
        var j :| 0 <= j < |ns| && ns[j].note.id == id;
        assert init[j] == ns[j];
      }
      if IdAmong(init, id) {
        var j :| 0 <= j < |init| && init[j].note.id == id;
        assert ns[j] == init[j];
      }
    }
  }

  /** The ids of `ns` not in `seen`, each once, in the order they are first
      met: what filing `ns` appends to the insertion order of the notes. */
  function FirstSeen(seen: set<string>, ns: seq<Normalized>): seq<string>
    decreases |ns|
  {
    if ns == [] then []
    else
      var id := ns[0].note.id;
      (if id in seen then [] else [id]) + FirstSeen(seen + {id}, ns[1..])
  }

  /** An id is appended exactly when it was not seen before and some record
      carries it. */
  lemma {:induction false} FirstSeenMembers(seen: set<string>, ns: seq<Normalized>, x: string)
    ensures x in FirstSeen(seen, ns) <==> x !in seen && IdAmong(ns, x)
    decreases |ns|
  {
    if ns != [] {
      var id := ns[0].note.id;
      FirstSeenMembers(seen + {id}, ns[1..], x);
      IdAmongCons(ns, x);
    }
  }

  /** No id is appended twice. */
  lemma {:induction false} FirstSeenDistinct(seen: set<string>, ns: seq<Normalized>)
    ensures Distinct(FirstSeen(seen, ns))
    decreases |ns|
  {
    if ns != [] {
      var id := ns[0].note.id;
      var tail := FirstSeen(seen + {id}, ns[1..]);
      FirstSeenDistinct(seen + {id}, ns[1..]);
      if id !in seen {
        FirstSeenMembers(seen + {id}, ns[1..], id);
        ConsDistinct(id, tail);
        assert FirstSeen(seen, ns) == [id] + tail;
      } else {
        assert FirstSeen(seen, ns) == tail by {
          assert [] + tail == tail;
        }
      }
    }
  }

  lemma IdAmongCons(ns: seq<Normalized>, x: string)
    requires ns != []
    ensures IdAmong(ns, x) <==> ns[0].note.id == x || IdAmong(ns[1..], x)
  {
    if IdAmong(ns[1..], x) {
      var j :| 0 <= j < |ns| - 1 && ns[1..][j].note.id == x;
      assert ns[j + 1] == ns[1..][j];
    }
    if IdAmong(ns, x) && ns[0].note.id != x {
      var j :| 0 <= j < |ns| && ns[j].note.id == x;
      assert ns[1..][j - 1] == ns[j];
    }
  }

  /** Filing one more record appends its id when that id was not seen yet. */
  lemma {:induction false} FirstSeenSnoc(seen: set<string>, ns: seq<Normalized>, n: Normalized)
    ensures FirstSeen(seen, ns + [n])
         == FirstSeen(seen, ns) + (if n.note.id in seen || IdAmong(ns, n.note.id) then [] else [n.note.id])
    decreases |ns|
  {
    if ns == [] {
      assert ([] + [n])[1..] == [];
    } else {
      var id := ns[0].note.id;
      assert (ns + [n])[0] == ns[0] && (ns + [n])[1..] == ns[1..] + [n];
      FirstSeenSnoc(seen + {id}, ns[1..], n);
      IdAmongCons(ns, n.note.id);
      var h := if id in seen then [] else [id];
      Assoc(h, FirstSeen(seen + {id}, ns[1..]),
            if n.note.id in seen + {id} || IdAmong(ns[1..], n.note.id) then [] else [n.note.id]);
    }
  }

  lemma Assoc<T>(x: seq<T>, y: seq<T>, z: seq<T>)
    ensures x + (y + z) == x + y + z
  {
  }

  /** The owner keys of the records `ns`, which filing them makes active. */
  function RevivedKeys(ns: seq<Normalized>): set<string> {
    set i | 0 <= i < |ns| :: ns[i].note.storagePageKey
  }

  lemma RevivedKeysSnoc(ns: seq<Normalized>, n: Normalized)
    ensures RevivedKeys(ns + [n]) == RevivedKeys(ns) + {n.note.storagePageKey}
  {
    var whole := ns + [n];
    forall k | k in RevivedKeys(whole) ensures k in RevivedKeys(ns) + {n.note.storagePageKey} {
      var i :| 0 <= i < |whole| && whole[i].note.storagePageKey == k;
      if i < |ns| {
        assert ns[i] == whole[i];
      }
    }
    forall k | k in RevivedKeys(ns) ensures k in RevivedKeys(whole) {
      var i :| 0 <= i < |ns| && ns[i].note.storagePageKey == k;
      assert whole[i] == ns[i];
    }
    assert whole[|ns|] == n;
  }

  /** Filing one more record on top of `ns` extends the insertion order and
      the active keys as filing the longer list from the start would. */
  lemma FileStep(base: map<string, Note>, order0: seq<string>, active0: set<string>,
                 ns: seq<Normalized>, n: Normalized, order: seq<string>, active: set<string>)
    requires order == order0 + FirstSeen(base.Keys, ns)
    requires active == active0 + RevivedKeys(ns)
    ensures (if n.note.id in Restored(base, ns) then order else order + [n.note.id])
         == order0 + FirstSeen(base.Keys, ns + [n])
    ensures active + {n.note.storagePageKey} == active0 + RevivedKeys(ns + [n])
  {
    RestoredKeys(base, ns, n.note.id);
    FirstSeenSnoc(base.Keys, ns, n);
    RevivedKeysSnoc(ns, n);
    Assoc(order0, FirstSeen(base.Keys, ns), [n.note.id]);
  }

  /** The last record with a given id wins: its normalized note is what ends up
      filed under that id. */
  lemma {:induction false} RestoredLastWins(base: map<string, Note>, ns: seq<Normalized>, j: nat)
    requires j < |ns|
    requires forall m :: j < m < |ns| ==> ns[m].note.id != ns[j].note.id
    ensures ns[j].note.id in Restored(base, ns) && Restored(base, ns)[ns[j].note.id] == ns[j].note
  {
    if j < |ns| - 1 {
      var init := ns[..|ns| - 1];
      assert init[j] == ns[j];
      RestoredLastWins(base, init, j);
    }
  }

  /** The notes of `ns` filed under `k`, each under its id and with its owner
      key written out; a later note with the same id replaces an earlier one. */
  function FiledUnder(ns: seq<Note>, k: string, pageKey: string): map<string, Note> {
    if ns == [] then map[]
    else
      var last := ns[|ns| - 1];
      var before := FiledUnder(ns[..|ns| - 1], k, pageKey);
      if OwnerKey(last, pageKey) == k then before[last.id := last.(storagePageKey := k)] else before
  }

  /** What loading back the list `Bucket(ns, k, pageKey)` should give: each
      note filed under `k`, in order, with its owner key written out and no
      change flagged. */
  function Unaltered(ns: seq<Note>, k: string, pageKey: string): (rs: seq<Normalized>)
    ensures forall j :: 0 <= j < |rs| ==> !rs[j].changed
  {
    if ns == [] then []
    else
      var last := ns[|ns| - 1];
      Unaltered(ns[..|ns| - 1], k, pageKey)
        + (if OwnerKey(last, pageKey) == k then [Normalized(last.(storagePageKey := k), false)] else [])
  }

  /** Normalizing the written list of the page gives back its notes unaltered. */
  lemma {:induction false} ReviveBucket(ns: seq<Note>, pageKey: string, now: int, freshIds: seq<string>,
                                        pointer: Point)
    requires pageKey != ""
    requires forall i :: 0 <= i < |ns| ==> ns[i].id != ""
    requires |Bucket(ns, pageKey, pageKey)| <= |freshIds|
    ensures ReviveAll(Bucket(ns, pageKey, pageKey), pageKey, now, freshIds, pointer) == Unaltered(ns, pageKey, pageKey)
  {
    if ns != [] {
      var init := ns[..|ns| - 1];
      var last := ns[|ns| - 1];
      var a := Bucket(init, pageKey, pageKey);
      assert |a| <= |Bucket(ns, pageKey, pageKey)|;
      ReviveBucket(init, pageKey, now, freshIds, pointer);
      if OwnerKey(last, pageKey) == pageKey {
        var r := SerializeNote(last, pageKey);
        assert a + [r] == Bucket(ns, pageKey, pageKey);
        ReviveSnoc(a, r, pageKey, now, freshIds, pointer);
        NormalizeSerialized(last, pageKey, pageKey, now, freshIds[|a|], pointer);
      } else {
        assert Bucket(ns, pageKey, pageKey) == a + [];
        assert a + [] == a;
      }
    }
  }

  /** Filing the unaltered notes files exactly the notes kept under `k`. */
  lemma {:induction false} RestoreUnaltered(base: map<string, Note>, ns: seq<Note>, k: string, pageKey: string)
    ensures Restored(base, Unaltered(ns, k, pageKey)) == base + FiledUnder(ns, k, pageKey)
  {
    if ns != [] {
      var init := ns[..|ns| - 1];
      var last := ns[|ns| - 1];
      RestoreUnaltered(base, init, k, pageKey);
      var before := Unaltered(init, k, pageKey);
      if OwnerKey(last, pageKey) == k {
        var whole := Unaltered(ns, k, pageKey);
        assert whole[..|whole| - 1] == before;
        assert (base + FiledUnder(init, k, pageKey))[last.id := last.(storagePageKey := k)]
            == base + FiledUnder(ns, k, pageKey);
      } else {
        assert Unaltered(ns, k, pageKey) == before + [];
        assert before + [] == before;
      }
    }
  }

  /** Reloading the page after a save: hydrating from the list the snapshot
      wrote under the page's key gives back, on top of `base`, exactly the
      notes that were filed under that key, and asks for no migration. */
  lemma HydrateSnapshotRoundTrip(base: map<string, Note>, ns: seq<Note>, pageKey: string, now: int,
                                 freshIds: seq<string>, pointer: Point)
    requires pageKey != ""
    requires forall i :: 0 <= i < |ns| ==> ns[i].id != ""
    requires |Bucket(ns, pageKey, pageKey)| <= |freshIds|
    ensures var revived := ReviveAll(Bucket(ns, pageKey, pageKey), pageKey, now, freshIds, pointer);
      Restored(base, revived) == base + FiledUnder(ns, pageKey, pageKey) && !ChangedAmong(revived)
  {
    ReviveBucket(ns, pageKey, now, freshIds, pointer);
    RestoreUnaltered(base, ns, pageKey, pageKey);
  }
}
