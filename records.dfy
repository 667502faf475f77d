/** Notes as the store holds them, stored notes as they come back from
 *  storage, and the conversions between the two: `serializeNote`,
 *  `normalizeStoredNote` (default filling plus the `changed` flag that drives
 *  the migration write) and the lookup `findStoredNote`. */
module Records {
  import opened Values

  datatype Point = Point(x: int, y: int)

  /** A note record as `createNote` builds it. */
  datatype Note = Note(
    id: string,
    x: int,
    y: int,
    text: string,
    items: seq<Item>,
    createdAt: int,
    updatedAt: int,
    isClosed: bool,
    storagePageKey: string)

  /** One entry of a stored page list, property by property. An entry that is
      not an object (null, a number, a string) reads as `Absent`: the code
      reads such an entry through `{}`, and none of them has an `id`. */
  datatype StoredRecord = StoredRecord(
    id: JsValue,
    x: JsValue,
    y: JsValue,
    text: JsValue,
    items: JsValue,
    createdAt: JsValue,
    updatedAt: JsValue,
    isClosed: JsValue,
    storagePageKey: JsValue)

  const Absent := StoredRecord(Undefined, Undefined, Undefined, Undefined, Undefined,
                               Undefined, Undefined, Undefined, Undefined)

  /** What the stored object holds under one page key. */
  datatype PageBucket = Records(records: seq<StoredRecord>) | NotAList

  /** The result of `normalizeStoredNote`: the note fields plus `changed`. */
  datatype Normalized = Normalized(note: Note, changed: bool)

  /** The plain object a note is written as. */
  function AsStored(n: Note): StoredRecord {
    StoredRecord(Str(n.id), Num(n.x), Num(n.y), Str(n.text), Arr(n.items),
                 Num(n.createdAt), Num(n.updatedAt), Bool(n.isClosed), Str(n.storagePageKey))
  }

  /** The bucket a note is filed under: its own key, or the current page's key
      when that is empty. */
  function OwnerKey(n: Note, pageKey: string): string {
    if n.storagePageKey != "" then n.storagePageKey else pageKey
  }

  /** `serializeNote`. Coordinates and timestamps of a note are always finite
      here, so the `finiteOr(…, Date.now())` of the source keeps them. */
  function SerializeNote(n: Note, pageKey: string): StoredRecord {
    AsStored(n.(storagePageKey := OwnerKey(n, pageKey)))
  }

  /** `normalizeStoredNote(raw, fallbackPageKey)`, with the clock reading
      `now`, the id `createId()` would mint, and the last pointer position
      passed in. */
  function NormalizeStoredNote(raw: StoredRecord, fallbackPageKey: string, now: int,
                               freshId: string, pointer: Point): (r: Normalized)
    // `changed` is set exactly when the stored entry is not already the plain
    // object of the note it normalizes to
    ensures r.changed <==> raw != AsStored(r.note)
    ensures freshId != "" ==> r.note.id != ""
    ensures fallbackPageKey != "" ==> r.note.storagePageKey != ""
    // a usable id and key are kept; otherwise a fresh id and the caller's key
    ensures raw.id.Str? && raw.id.s != "" ==> r.note.id == raw.id.s
    ensures !(raw.id.Str? && raw.id.s != "") ==> r.note.id == freshId
    ensures raw.storagePageKey.Str? && raw.storagePageKey.s != "" ==> r.note.storagePageKey == raw.storagePageKey.s
    ensures !(raw.storagePageKey.Str? && raw.storagePageKey.s != "") ==> r.note.storagePageKey == fallbackPageKey
    // text and items default to empty; a stored array is passed through as is
    ensures r.note.text == (if raw.text.Str? then raw.text.s else "")
    ensures r.note.items == (if raw.items.Arr? then raw.items.elems else [])
    // a missing update time falls back to the creation time, not to the clock
    ensures ToNumber(raw.updatedAt).None? ==> r.note.updatedAt == r.note.createdAt
    ensures ToNumber(raw.createdAt).None? ==> r.note.createdAt == now
  {
    var id := if raw.id.Str? && raw.id.s != "" then raw.id.s else freshId;
    var text := if raw.text.Str? then raw.text.s else "";
    var items := if raw.items.Arr? then raw.items.elems else [];
    var createdAt := FiniteOr(raw.createdAt, now);
    var updatedAt := FiniteOr(raw.updatedAt, createdAt);
    var isClosed := Truthy(raw.isClosed);
    var storagePageKey :=
      if raw.storagePageKey.Str? && raw.storagePageKey.s != "" then raw.storagePageKey.s
      else fallbackPageKey;
    var x := FiniteOr(raw.x, pointer.x);
    var y := FiniteOr(raw.y, pointer.y);
    var changed :=
      || raw.id != Str(id)
      || raw.text != Str(text)
      // `items` is compared by reference: only a replacement array differs
      || !raw.items.Arr?
      || raw.createdAt != Num(createdAt)
      || raw.updatedAt != Num(updatedAt)
      || raw.isClosed != Bool(isClosed)
      || raw.storagePageKey != Str(storagePageKey)
      || raw.x != Num(x)
      || raw.y != Num(y);
    Normalized(Note(id, x, y, text, items, createdAt, updatedAt, isClosed, storagePageKey), changed)
  }

  /** The remaining fields of `normalizeStoredNote`: a stored value that
      converts to a finite number is kept as that number, missing coordinates
      come from the last pointer position, and `isClosed` is `Boolean(isClosed)`. */
  lemma NormalizeReadsValues(raw: StoredRecord, fallbackPageKey: string, now: int,
                             freshId: string, pointer: Point)
    ensures var n := NormalizeStoredNote(raw, fallbackPageKey, now, freshId, pointer).note;
      && (ToNumber(raw.createdAt).Some? ==> n.createdAt == ToNumber(raw.createdAt).value)
      && (ToNumber(raw.updatedAt).Some? ==> n.updatedAt == ToNumber(raw.updatedAt).value)
      && n.x == (if ToNumber(raw.x).Some? then ToNumber(raw.x).value else pointer.x)
      && n.y == (if ToNumber(raw.y).Some? then ToNumber(raw.y).value else pointer.y)
      && n.isClosed == Truthy(raw.isClosed)
  {
  }

  /** A serialized note normalizes back to itself, under its owner key, and is
      not flagged for migration. */
  lemma NormalizeSerialized(n: Note, pageKey: string, fallbackPageKey: string, now: int,
                            freshId: string, pointer: Point)
    requires n.id != "" && OwnerKey(n, pageKey) != ""
    ensures NormalizeStoredNote(SerializeNote(n, pageKey), fallbackPageKey, now, freshId, pointer)
         == Normalized(n.(storagePageKey := OwnerKey(n, pageKey)), false)
  {
  }

  /** Normalizing an already normalized record changes nothing and does not ask
      for a migration, whatever the clock, the id supply and the pointer say. */
  lemma NormalizeIdempotent(raw: StoredRecord, fallbackPageKey: string, now: int, freshId: string,
                            pointer: Point, now': int, freshId': string, pointer': Point)
    requires freshId != ""
    ensures
      var first := NormalizeStoredNote(raw, fallbackPageKey, now, freshId, pointer).note;
      NormalizeStoredNote(AsStored(first), fallbackPageKey, now', freshId', pointer') == Normalized(first, false)
  {
  }

  /** The list stored under `key`, or the empty list when there is none. */
  function StoredList(cache: map<string, PageBucket>, key: string): seq<StoredRecord> {
    if key in cache && cache[key].Records? then cache[key].records else []
  }

  /** Index of the first record whose id is the string `noteId`
      (`Array.prototype.find` with `item && item.id === noteId`). */
  function FirstWithId(records: seq<StoredRecord>, noteId: string): (r: Option<nat>)
    ensures r.Some? ==> r.value < |records| && records[r.value].id == Str(noteId)
    ensures r.Some? ==> forall j :: 0 <= j < r.value ==> records[j].id != Str(noteId)
    ensures r.None? ==> forall j :: 0 <= j < |records| ==> records[j].id != Str(noteId)
  {
    if records == [] then None
    else if records[0].id == Str(noteId) then Some(0)
    else match FirstWithId(records[1..], noteId)
      case None => None
      case Some(i) => Some(i + 1)
  }

  /** `findStoredNote(pageKey, noteId)`: the first record with that id in the
      list stored under `pageKey`, normalized against that key. */
  function FindStoredNote(cache: map<string, PageBucket>, pageKey: string, noteId: string,
                          now: int, freshId: string, pointer: Point): (r: Option<Normalized>)
    ensures r.None? <==> forall j :: 0 <= j < |StoredList(cache, pageKey)| ==> StoredList(cache, pageKey)[j].id != Str(noteId)
    ensures r.Some? && noteId != "" ==> r.value.note.id == noteId
    // the record returned is the first one with that id, normalized against `pageKey`
    ensures r.Some? ==>
      var list := StoredList(cache, pageKey);
      exists i :: 0 <= i < |list| && list[i].id == Str(noteId)
        && (forall j :: 0 <= j < i ==> list[j].id != Str(noteId))
        && r.value == NormalizeStoredNote(list[i], pageKey, now, freshId, pointer)
  {
    var list := StoredList(cache, pageKey);
    match FirstWithId(list, noteId)
    case None => None
    case Some(i) => Some(NormalizeStoredNote(list[i], pageKey, now, freshId, pointer))
  }
}
