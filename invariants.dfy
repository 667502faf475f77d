/** The standing invariants of the note store, stated on plain values so that
 *  each one can be read, and preserved, on its own: the notes are filed
 *  consistently, at most one debounce timer is pending, and writes never
 *  overlap. */
module Invariants {
  import opened Values
  import opened Records
  import opened Snapshot

  /** `order` with `id` taken out (`Map.prototype.delete` keeps the others' order). */
  function Without(order: seq<string>, id: string): (r: seq<string>)
    ensures forall x :: x in r <==> x in order && x != id
    ensures |r| <= |order|
  {
    if order == [] then []
    else (if order[0] == id then [] else [order[0]]) + Without(order[1..], id)
  }

  /** Deleting one key acts on each stretch of the insertion order separately,
   *  so the keys that stay keep their relative order and their count. */
  lemma {:induction false} WithoutAppend(a: seq<string>, b: seq<string>, id: string)
    ensures Without(a + b, id) == Without(a, id) + Without(b, id)
  {
    if a == [] {
      assert a + b == b;
    } else {
      var h := if a[0] == id then [] else [a[0]];
      var x, y := Without(a[1..], id), Without(b, id);
      WithoutAppend(a[1..], b, id);
      assert Without(a + b, id) == h + (x + y) by {
        assert (a + b)[0] == a[0] && (a + b)[1..] == a[1..] + b;
      }
      assert h + (x + y) == (h + x) + y;
    }
  }

  predicate Distinct(s: seq<string>) {
    forall i, j :: 0 <= i < j < |s| ==> s[i] != s[j]
  }

  lemma ConsDistinct(x: string, t: seq<string>)
    requires Distinct(t) && x !in t
    ensures Distinct([x] + t)
  {
    var r := [x] + t;
    forall i, j | 0 <= i < j < |r| ensures r[i] != r[j] {
      assert r[j] == t[j - 1];
      if i > 0 {
        assert r[i] == t[i - 1];
      }
    }
  }

  lemma {:induction false} WithoutDistinct(order: seq<string>, id: string)
    requires Distinct(order)
    ensures Distinct(Without(order, id))
  {
    if order != [] {
      assert Distinct(order[1..]) by {
        forall i, j | 0 <= i < j < |order[1..]| ensures order[1..][i] != order[1..][j] {
          assert order[1..][i] == order[i + 1] && order[1..][j] == order[j + 1];
        }
      }
      WithoutDistinct(order[1..], id);
      var rest := Without(order[1..], id);
      assert order[0] !in order[1..];
      assert order[0] !in rest;
      var r := Without(order, id);
      if order[0] != id {
        assert r == [order[0]] + rest;
        forall i, j | 0 <= i < j < |r| ensures r[i] != r[j] {
          if i == 0 {
            assert r[j] == rest[j - 1] && rest[j - 1] in rest;
          } else {
            assert r[i] == rest[i - 1] && r[j] == rest[j - 1];
          }
        }
      } else {
        assert r == rest;
      }
    }
  }

  /** The last element of a non-empty sequence. */
  function Last(s: seq<nat>): nat
    requires |s| > 0
  {
    s[|s| - 1]
  }

  /** The notes are filed consistently and exactly the open ones are on the page. */
  ghost predicate NotesOk(pageKey: string, order: seq<string>, notes: map<string, Note>,
                          active: set<string>, rendered: set<string>)
  {
    && pageKey != ""
    && pageKey in active
    && WellFiled(order, notes, active)
    && (forall id :: id in rendered <==> id in notes && !notes[id].isClosed)
  }

  /** At most one debounce timer is pending, and it is `saveTimer`. */
  ghost predicate TimerOk(saveTimer: Option<nat>, pendingTimers: set<nat>, nextTimer: nat) {
    && (saveTimer.None? ==> pendingTimers == {})
    && (saveTimer.Some? ==> pendingTimers == {saveTimer.value})
    && (forall t :: t in pendingTimers ==> t < nextTimer)
  }

  ghost predicate Sorted(s: seq<nat>) {
    forall i, j :: 0 <= i < j < |s| ==> s[i] <= s[j]
  }

  /** Writes never overlap: at most one is unsettled, and one is exactly while
      the gate is closed. While a write runs, `pendingSave` says whether a
      flush was asked for after its snapshot was taken; once the gate is open
      (and the last write did not fail) the last write was taken after the
      last request. */
  ghost predicate FlightOk(saveInFlight: bool, pendingSave: bool, settled: nat, writeCount: nat,
                           takenAt: seq<nat>, requests: nat, lastFailed: bool)
  {
    && settled + (if saveInFlight then 1 else 0) == writeCount
    && |takenAt| == writeCount
    && Sorted(takenAt)
    && (forall i :: 0 <= i < |takenAt| ==> takenAt[i] <= requests)
    && (saveInFlight ==> !lastFailed && (pendingSave <==> Last(takenAt) < requests))
    && (!saveInFlight && !lastFailed ==> requests == (if |takenAt| == 0 then 0 else Last(takenAt)))
  }

  /** Taking a snapshot at the current request count keeps the counts ordered. */
  lemma TakeSnapshot(takenAt: seq<nat>, requests: nat)
    requires Sorted(takenAt)
    requires forall i :: 0 <= i < |takenAt| ==> takenAt[i] <= requests
    ensures Sorted(takenAt + [requests])
    ensures forall i :: 0 <= i < |takenAt| + 1 ==> (takenAt + [requests])[i] <= requests
  {
  }

  /** Filing note `n` under its id (`notes.set`, which keeps an existing key's
      place in the order) keeps the notes consistent, provided its owner key is
      made active and its element is dropped or (re)built as it is closed or open. */
  lemma FileKeepsNotesOk(pageKey: string, order: seq<string>, notes: map<string, Note>,
                         active: set<string>, rendered: set<string>, n: Note)
    requires NotesOk(pageKey, order, notes, active, rendered)
    requires n.id != "" && n.storagePageKey != ""
    ensures NotesOk(pageKey, if n.id in notes then order else order + [n.id], notes[n.id := n],
                    active + {n.storagePageKey},
                    if n.isClosed then rendered - {n.id} else rendered + {n.id})
  {
    var order' := if n.id in notes then order else order + [n.id];
    assert forall i :: 0 <= i < |order| ==> order'[i] == order[i];
  }

  /** Removing note `id` everywhere keeps the notes consistent. */
  lemma DropKeepsNotesOk(pageKey: string, order: seq<string>, notes: map<string, Note>,
                         active: set<string>, rendered: set<string>, id: string)
    requires NotesOk(pageKey, order, notes, active, rendered)
    ensures NotesOk(pageKey, Without(order, id), notes - {id}, active, rendered - {id})
  {
    assert Distinct(order);
    WithoutDistinct(order, id);
    var order', notes' := Without(order, id), notes - {id};
    forall i | 0 <= i < |order'| ensures order'[i] in order && order'[i] != id {
      assert order'[i] in order';
    }
    assert forall x :: x in notes' ==> x in order && x != id;
    assert WellFiled(order', notes', active);
  }
}
