/** The history panel's queries over the whole stored object: the flat list of
 *  every stored note (`getHistoryEntries`), its card titles (`historyTitle`),
 *  the calendar period keys (`toPeriodKey`), the period groups
 *  (`buildPeriodGroups`) and the rule in `render` that resets a period
 *  selection that no longer exists to "all". */
module History {
  import opened Text
  import opened Values
  import opened Records
  import opened Sorting

  datatype HistoryEntry = HistoryEntry(
    id: string,
    pageKey: string,
    text: string,
    imageCount: nat,
    youtubeCount: nat,
    updatedAt: int,
    isClosed: bool)

  function CountImages(items: seq<Item>): nat {
    if items == [] then 0 else (if items[0].Image? then 1 else 0) + CountImages(items[1..])
  }

  function CountYouTube(items: seq<Item>): nat {
    if items == [] then 0 else (if items[0].YouTube? then 1 else 0) + CountYouTube(items[1..])
  }

  /** The entry `getHistoryEntries` builds from one stored record, read
      through `normalizeStoredNote` against the key it is stored under. */
  function EntryOf(raw: StoredRecord, key: string, now: int, freshId: string, pointer: Point): HistoryEntry {
    var n := NormalizeStoredNote(raw, key, now, freshId, pointer).note;
    HistoryEntry(n.id, n.storagePageKey, n.text, CountImages(n.items), CountYouTube(n.items),
                 n.updatedAt, n.isClosed)
  }

  function ListEntries(records: seq<StoredRecord>, key: string, now: int, freshId: string,
                       pointer: Point): seq<HistoryEntry>
  {
    if records == [] then []
    else ListEntries(records[..|records| - 1], key, now, freshId, pointer)
           + [EntryOf(records[|records| - 1], key, now, freshId, pointer)]
  }

  /** The entries of every stored list, key by key in `keys` order; a key whose
      value is not an array contributes nothing. */
  function FlatEntries(cache: map<string, PageBucket>, keys: seq<string>, now: int, freshId: string,
                       pointer: Point): seq<HistoryEntry>
  {
    if keys == [] then []
    else
      var last := keys[|keys| - 1];
      FlatEntries(cache, keys[..|keys| - 1], now, freshId, pointer)
        + ListEntries(StoredList(cache, last), last, now, freshId, pointer)
  }

  function Recency(e: HistoryEntry): int {
    e.updatedAt
  }

  /** The inner loop of `getHistoryEntries`: push one entry per record of the
      list stored under `key`. */
  method PushEntries(entries: seq<HistoryEntry>, rawList: seq<StoredRecord>, key: string, now: int,
                     freshId: string, pointer: Point) returns (pushed: seq<HistoryEntry>)
    ensures pushed == entries + ListEntries(rawList, key, now, freshId, pointer)
  {
    pushed := entries;
    for j := 0 to |rawList|
      invariant pushed == entries + ListEntries(rawList[..j], key, now, freshId, pointer)
    {
      assert rawList[..j + 1][..j] == rawList[..j];
      pushed := pushed + [EntryOf(rawList[j], key, now, freshId, pointer)];
    }
    assert rawList[..|rawList|] == rawList;
  }

  /** `getHistoryEntries`: `keys` is the object's key order (`Object.entries`);
      the result holds one entry per stored record, newest first. */
  method GetHistoryEntries(cache: map<string, PageBucket>, keys: seq<string>, now: int,
                           freshId: string, pointer: Point) returns (entries: seq<HistoryEntry>)
    requires forall i, j :: 0 <= i < j < |keys| ==> keys[i] != keys[j]
    requires forall k :: k in cache <==> k in keys
    ensures SortedDescBy(entries, Recency)
    ensures multiset(entries) == multiset(FlatEntries(cache, keys, now, freshId, pointer))
  {
    entries := [];
    for i := 0 to |keys|
      invariant entries == FlatEntries(cache, keys[..i], now, freshId, pointer)
    {
      var key := keys[i];
      var listed := ListEntries(StoredList(cache, key), key, now, freshId, pointer);
      assert FlatEntries(cache, keys[..i + 1], now, freshId, pointer) == entries + listed by {
        assert keys[..i + 1][..i] == keys[..i] && keys[..i + 1][i] == key;
      }
      if cache[key].Records? {
        entries := PushEntries(entries, cache[key].records, key, now, freshId, pointer);
      } else {
        assert listed == [];
        assert entries + [] == entries;
      }
    }
    assert keys[..|keys|] == keys;
    entries := SortDescBy(entries, Recency);
  }

  /** Every record of every stored list has its entry in the flat list. */
  lemma {:induction false} FlatEntriesListEveryRecord(cache: map<string, PageBucket>, keys: seq<string>,
                                                       k: string, j: nat, now: int, freshId: string, pointer: Point)
    requires k in keys && j < |StoredList(cache, k)|
    ensures EntryOf(StoredList(cache, k)[j], k, now, freshId, pointer)
            in FlatEntries(cache, keys, now, freshId, pointer)
  {
    var last := keys[|keys| - 1];
    if k == last {
      ListEntriesHasEach(StoredList(cache, k), k, j, now, freshId, pointer);
    } else {
      assert k in keys[..|keys| - 1] by {
        var m :| 0 <= m < |keys| && keys[m] == k;
        assert m < |keys| - 1 && keys[..|keys| - 1][m] == k;
      }
      FlatEntriesListEveryRecord(cache, keys[..|keys| - 1], k, j, now, freshId, pointer);
    }
  }

  lemma {:induction false} ListEntriesHasEach(records: seq<StoredRecord>, key: string, j: nat,
                                              now: int, freshId: string, pointer: Point)
    requires j < |records|
    ensures EntryOf(records[j], key, now, freshId, pointer) in ListEntries(records, key, now, freshId, pointer)
  {
    if j < |records| - 1 {
      ListEntriesHasEach(records[..|records| - 1], key, j, now, freshId, pointer);
      assert records[..|records| - 1][j] == records[j];
    }
  }

  // ---------------------------------------------------------------- titles

  /** The regular-expression replacement `replace(/\s+/g, " ")`. */
  function CollapseSpaces(s: string): (r: string)
    ensures |r| <= |s|
    ensures forall i :: 0 <= i < |r| && IsSpace(r[i]) ==> r[i] == ' '
    ensures forall i, j :: 0 <= i < j < |r| && j == i + 1 ==> !(r[i] == ' ' && r[j] == ' ')
    ensures s != [] && !IsSpace(s[0]) ==> r != [] && r[0] == s[0]
    decreases |s|
  {
    if s == [] then []
    else if IsSpace(s[0]) then
      var rest := TrimStart(s);
      assert rest != s;
      " " + CollapseSpaces(rest)
    else [s[0]] + CollapseSpaces(s[1..])
  }

  /** `s` with every white-space character removed. */
  function Unspaced(s: string): string {
    if s == [] then [] else (if IsSpace(s[0]) then [] else [s[0]]) + Unspaced(s[1..])
  }

  /** Dropping leading white space keeps the other characters. */
  lemma {:induction false} UnspacedTrimStart(s: string)
    ensures Unspaced(TrimStart(s)) == Unspaced(s)
  {
    if s != [] && IsSpace(s[0]) {
      UnspacedTrimStart(s[1..]);
    }
  }

  /** Collapsing only rewrites white space: every other character is kept, in order. */
  lemma {:induction false} CollapseKeepsWords(s: string)
    ensures Unspaced(CollapseSpaces(s)) == Unspaced(s)
    decreases |s|
  {
    if s != [] {
      var r := CollapseSpaces(s);
      if IsSpace(s[0]) {
        var rest := TrimStart(s);
        CollapseKeepsWords(rest);
        UnspacedTrimStart(s);
        assert r[0] == ' ' && r[1..] == CollapseSpaces(rest);
      } else {
        CollapseKeepsWords(s[1..]);
        assert r[0] == s[0] && r[1..] == CollapseSpaces(s[1..]);
      }
    }
  }

  /** A white-space run of any length, up to the next other character or the
      end, becomes one space. */
  lemma CollapseRun(w: string, rest: string)
    requires w != [] && forall i :: 0 <= i < |w| ==> IsSpace(w[i])
    requires rest == [] || !IsSpace(rest[0])
    ensures CollapseSpaces(w + rest) == " " + CollapseSpaces(rest)
  {
    assert (w + rest)[0] == w[0];
    TrimStartRun(w, rest);
  }

  /** A character other than white space is kept as it is. */
  lemma CollapseWord(c: char, s: string)
    requires !IsSpace(c)
    ensures CollapseSpaces([c] + s) == [c] + CollapseSpaces(s)
  {
    assert ([c] + s)[0] == c && ([c] + s)[1..] == s;
  }

  /** Leading white space of a string that ends in another character is cut
      within that string. */
  lemma {:induction false} TrimStartAppend(x: string, y: string)
    requires x != [] && !IsSpace(x[|x| - 1])
    ensures TrimStart(x + y) == TrimStart(x) + y
  {
    assert (x + y)[0] == x[0];
    if IsSpace(x[0]) {
      assert (x + y)[1..] == x[1..] + y;
      TrimStartAppend(x[1..], y);
    }
  }

  /** Wherever it sits, a white-space run between two other characters (or
      the ends of the text) becomes exactly one space, and the text on either
      side collapses on its own. */
  lemma CollapseRunAnywhere(a: string, w: string, rest: string)
    requires a == [] || !IsSpace(a[|a| - 1])
    requires w != [] && forall i :: 0 <= i < |w| ==> IsSpace(w[i])
    requires rest == [] || !IsSpace(rest[0])
    ensures CollapseSpaces(a + w + rest) == CollapseSpaces(a) + " " + CollapseSpaces(rest)
  {
    var z := w + rest;
    assert z[0] == w[0];
    Assoc(a, w, rest);
    CollapseBeforeRun(a, z);
    CollapseRun(w, rest);
    Assoc(CollapseSpaces(a), " ", CollapseSpaces(rest));
  }

  lemma Assoc<T>(x: seq<T>, y: seq<T>, z: seq<T>)
    ensures x + (y + z) == x + y + z
  {
  }

  /** Text that ends in a non-space collapses independently of a tail that
      starts with white space. */
  lemma {:induction false} CollapseBeforeRun(a: string, z: string)
    requires a == [] || !IsSpace(a[|a| - 1])
    requires z != [] && IsSpace(z[0])
    ensures CollapseSpaces(a + z) == CollapseSpaces(a) + CollapseSpaces(z)
    decreases |a|
  {
    if a == [] {
      assert a + z == z;
    } else if IsSpace(a[0]) {
      var t := TrimStart(a);
      CollapseLeadingRun(a, z);
      CollapseBeforeRun(t, z);
      Assoc(" ", CollapseSpaces(t), CollapseSpaces(z));
    } else {
      var t := a[1..];
      assert a == [a[0]] + t;
      Assoc([a[0]], t, z);
      CollapseWord(a[0], t + z);
      CollapseWord(a[0], t);
      assert t == [] || t[|t| - 1] == a[|a| - 1];
      CollapseBeforeRun(t, z);
      Assoc([a[0]], CollapseSpaces(t), CollapseSpaces(z));
    }
  }

  /** A text that starts with white space and ends with another character:
      its leading run becomes one space, with or without a tail after it. */
  lemma CollapseLeadingRun(a: string, y: string)
    requires a != [] && IsSpace(a[0]) && !IsSpace(a[|a| - 1])
    ensures var t := TrimStart(a);
      && t != [] && t[|t| - 1] == a[|a| - 1] && |t| < |a|
      && CollapseSpaces(a) == " " + CollapseSpaces(t)
      && CollapseSpaces(a + y) == " " + CollapseSpaces(t + y)
  {
    TrimStartAppend(a, y);
    assert (a + y)[0] == a[0];
  }

  /** A card line: the text with white-space runs collapsed, cut to 56
      characters (`slice(0, 56)`). */
  function CardLine(s: string): (r: string)
    ensures var collapsed := CollapseSpaces(s);
      && |r| == (if |collapsed| < 56 then |collapsed| else 56)
      && r == collapsed[..|r|]
    ensures |r| <= 56
    ensures forall i :: 0 <= i < |r| && IsSpace(r[i]) ==> r[i] == ' '
    ensures forall i, j :: 0 <= i < j < |r| && j == i + 1 ==> !(r[i] == ' ' && r[j] == ' ')
    ensures s != [] && !IsSpace(s[0]) ==> r != [] && r[0] == s[0]
  {
    var collapsed := CollapseSpaces(s);
    var cut := collapsed[..if |collapsed| < 56 then |collapsed| else 56];
    assert forall i :: 0 <= i < |cut| ==> cut[i] == collapsed[i];
    cut
  }

  /** `historyTitle`: the trimmed text as a card line; for an empty text, a
      media summary or "Untitled note". */
  function HistoryTitle(e: HistoryEntry): (title: string)
    ensures title != []
    ensures Trim(e.text) != [] ==>
      && title == CardLine(Trim(e.text))
      && |title| <= 56
      && !IsSpace(title[0])
      && (forall i :: 0 <= i < |title| && IsSpace(title[i]) ==> title[i] == ' ')
      && (forall i :: 0 <= i < |title| - 1 ==> !(title[i] == ' ' && title[i + 1] == ' '))
    ensures Trim(e.text) == [] && (e.imageCount > 0 || e.youtubeCount > 0) ==>
      title == "Media note (" + NatToString(e.imageCount) + " image, " + NatToString(e.youtubeCount) + " link)"
    ensures Trim(e.text) == [] && e.imageCount == 0 && e.youtubeCount == 0 ==> title == "Untitled note"
  {
    var trimmed := Trim(e.text);
    if trimmed != [] then CardLine(trimmed)
    else if e.imageCount > 0 || e.youtubeCount > 0 then
      "Media note (" + NatToString(e.imageCount) + " image, " + NatToString(e.youtubeCount) + " link)"
    else
      "Untitled note"
  }

  // --------------------------------------------------------------- periods

  type MonthNumber = m: int | 1 <= m <= 12 witness 1
  type DayNumber = d: int | 1 <= d <= 31 witness 1

  /** The local calendar fields of a timestamp (`getFullYear`, `getMonth() + 1`,
      `getDate()`); the conversion itself is the host's. */
  datatype CalendarDate = CalendarDate(year: int, month: MonthNumber, day: DayNumber)

  /** The history panel's "Group" choice. */
  datatype Granularity = ByDate | ByMonth | ByYear

  /** `toPeriodKey`: "YYYY", "YYYY-MM" or "YYYY-MM-DD". */
  function PeriodKey(d: CalendarDate, g: Granularity): string {
    var year := IntToString(d.year);
    match g
    case ByYear => year
    case ByMonth => year + "-" + Pad2(d.month)
    case ByDate => year + "-" + Pad2(d.month) + "-" + Pad2(d.day)
  }

  predicate SamePeriod(a: CalendarDate, b: CalendarDate, g: Granularity) {
    match g
    case ByYear => a.year == b.year
    case ByMonth => a.year == b.year && a.month == b.month
    case ByDate => a == b
  }

  lemma Pad2Injective(a: nat, b: nat)
    requires a < 100 && b < 100
    ensures Pad2(a) == Pad2(b) <==> a == b
  {
    if Pad2(a) == Pad2(b) {
      assert DigitChar(a / 10) == DigitChar(b / 10) && DigitChar(a % 10) == DigitChar(b % 10);
    }
  }

  /** Two dates share a period key exactly when they fall in the same period:
      the key neither merges two periods nor splits one. */
  lemma PeriodKeyInjective(a: CalendarDate, b: CalendarDate, g: Granularity)
    ensures PeriodKey(a, g) == PeriodKey(b, g) <==> SamePeriod(a, b, g)
  {
    var ya, yb := IntToString(a.year), IntToString(b.year);
    IntToStringInjective(a.year, b.year);
    Pad2Injective(a.month, b.month);
    Pad2Injective(a.day, b.day);
    if PeriodKey(a, g) == PeriodKey(b, g) {
      match g
      case ByYear =>
      case ByMonth =>
        SameTail(ya + "-", Pad2(a.month), yb + "-", Pad2(b.month));
        SameTail(ya, "-", yb, "-");
      case ByDate =>
        SameTail(ya + "-" + Pad2(a.month) + "-", Pad2(a.day), yb + "-" + Pad2(b.month) + "-", Pad2(b.day));
        SameTail(ya + "-" + Pad2(a.month), "-", yb + "-" + Pad2(b.month), "-");
        SameTail(ya + "-", Pad2(a.month), yb + "-", Pad2(b.month));
        SameTail(ya, "-", yb, "-");
    }
  }

  /** Two equal strings that end in pieces of the same length split alike. */
  lemma SameTail(x: string, t: string, y: string, u: string)
    requires |t| == |u| && x + t == y + u
    ensures x == y && t == u
  {
    assert x == (x + t)[..|x|] && y == (y + u)[..|y|];
    assert t == (x + t)[|x|..] && u == (y + u)[|y|..];
  }

  /** No period key collides with the "all" option or the empty value. */
  lemma PeriodKeyIsNotReserved(d: CalendarDate, g: Granularity)
    ensures PeriodKey(d, g) != "all" && PeriodKey(d, g) != ""
  {
    var y := IntToString(d.year);
    assert y[0] == '-' || IsDigit(y[0]);
    assert PeriodKey(d, g)[0] == y[0];
  }

  /** The period an entry falls in, through the host's calendar `cal`. */
  function PeriodOf(e: HistoryEntry, g: Granularity, cal: int -> CalendarDate): string {
    PeriodKey(cal(e.updatedAt), g)
  }

  /** One option of the period list; `label` is what `toPeriodLabel` prints,
      which is the same text as the key. */
  datatype PeriodGroup = PeriodGroup(key: string, caption: string, latest: int)

  function Latest(p: PeriodGroup): int {
    p.latest
  }

  function KeyOfGroup(p: PeriodGroup): string {
    p.key
  }

  /** Some group of `groups` has the key `k`. */
  ghost predicate HasGroup(groups: seq<PeriodGroup>, k: string) {
    exists i :: 0 <= i < |groups| && groups[i].key == k
  }

  /** `latest` is the newest update time among the entries of period `k`. */
  ghost predicate NewestOfPeriod(es: seq<HistoryEntry>, period: HistoryEntry -> string,
                                 k: string, latest: int)
  {
    && (exists j :: 0 <= j < |es| && period(es[j]) == k && es[j].updatedAt == latest)
    && (forall j :: 0 <= j < |es| && period(es[j]) == k ==> es[j].updatedAt <= latest)
  }

  /** `byKey` summarizes `es`: one group per period that occurs in `es`, keyed
      and captioned by the period, carrying the newest update time in it. */
  ghost predicate Summarizes(es: seq<HistoryEntry>, byKey: map<string, PeriodGroup>, period: HistoryEntry -> string)
  {
    && (forall k :: k in byKey ==> byKey[k].key == k && byKey[k].caption == k)
    && (forall j :: 0 <= j < |es| ==> period(es[j]) in byKey)
    && (forall k :: k in byKey ==> NewestOfPeriod(es, period, k, byKey[k].latest))
  }

  /** The host's `toPeriodKey` at a fixed granularity, as a function of the entry. */
  function PeriodFn(g: Granularity, cal: int -> CalendarDate): (f: HistoryEntry -> string)
    ensures forall e :: f(e) == PeriodOf(e, g, cal)
  {
    e => PeriodOf(e, g, cal)
  }

  /** The first pass of `buildPeriodGroups`: a map from period to group, and the
      order in which the periods were first met. */
  method CollectPeriods(entries: seq<HistoryEntry>, period: HistoryEntry -> string)
    returns (byKey: map<string, PeriodGroup>, keyOrder: seq<string>)
    ensures forall a, b :: 0 <= a < b < |keyOrder| ==> keyOrder[a] != keyOrder[b]
    ensures forall k :: k in byKey <==> k in keyOrder
    ensures Summarizes(entries, byKey, period)
  {
    // the source's `Map`: its entries, and its insertion order
    byKey, keyOrder := map[], [];
    for i := 0 to |entries|
      invariant forall a, b :: 0 <= a < b < |keyOrder| ==> keyOrder[a] != keyOrder[b]
      invariant forall k :: k in byKey <==> k in keyOrder
      invariant Summarizes(entries[..i], byKey, period)
    {
      var entry := entries[i];
      var key := period(entry);
      ghost var before := byKey;
      if key !in byKey {
        // the caption is `toPeriodLabel`, which prints the same text as `toPeriodKey`
        byKey := byKey[key := PeriodGroup(key, key, entry.updatedAt)];
        keyOrder := keyOrder + [key];
      } else {
        var current := byKey[key];
        if entry.updatedAt > current.latest {
          byKey := byKey[key := current.(latest := entry.updatedAt)];
        }
      }
      SummarizeStep(entries[..i], entry, before, byKey, period);
      assert entries[..i + 1] == entries[..i] + [entry];
    }
    assert entries[..|entries|] == entries;
  }

  /** `buildPeriodGroups`: one group per period that occurs among `entries`,
      carrying the newest update time of the period, newest period first. */
  method BuildPeriodGroups(entries: seq<HistoryEntry>, g: Granularity, cal: int -> CalendarDate)
    returns (groups: seq<PeriodGroup>)
    ensures SortedDescBy(groups, Latest)
    ensures DistinctBy(groups, KeyOfGroup)
    ensures forall j :: 0 <= j < |entries| ==> HasGroup(groups, PeriodOf(entries[j], g, cal))
    ensures forall i :: 0 <= i < |groups| ==>
              && groups[i].caption == groups[i].key
              && NewestOfPeriod(entries, PeriodFn(g, cal), groups[i].key, groups[i].latest)
  {
    var period := PeriodFn(g, cal);
    var byKey, keyOrder := CollectPeriods(entries, period);
    var collected := seq(|keyOrder|, a requires 0 <= a < |keyOrder| => byKey[keyOrder[a]]);
    assert DistinctBy(collected, KeyOfGroup) by {
      forall a, b | 0 <= a < b < |collected| ensures collected[a].key != collected[b].key {
        assert collected[a].key == keyOrder[a] && collected[b].key == keyOrder[b];
      }
    }
    groups := SortDescBy(collected, Latest);
    SortKeepsDistinct(collected, Latest, KeyOfGroup);
    SortKeepsElements(collected, Latest);
    GroupsFromSummary(entries, period, byKey, keyOrder, collected, groups);
  }

  /** The groups listed from a summary, in any order, cover every entry's period
      and carry the newest time of their period. */
  lemma GroupsFromSummary(entries: seq<HistoryEntry>, period: HistoryEntry -> string,
                          byKey: map<string, PeriodGroup>, keyOrder: seq<string>,
                          collected: seq<PeriodGroup>, groups: seq<PeriodGroup>)
    requires forall k :: k in byKey <==> k in keyOrder
    requires Summarizes(entries, byKey, period)
    requires |collected| == |keyOrder|
    requires forall a :: 0 <= a < |keyOrder| ==> collected[a] == byKey[keyOrder[a]]
    requires forall x :: x in groups <==> x in collected
    ensures forall j :: 0 <= j < |entries| ==> HasGroup(groups, period(entries[j]))
    ensures forall i :: 0 <= i < |groups| ==>
              && groups[i].caption == groups[i].key
              && NewestOfPeriod(entries, period, groups[i].key, groups[i].latest)
  {
    forall j | 0 <= j < |entries|
      ensures HasGroup(groups, period(entries[j]))
    {
      var k := period(entries[j]);
      assert k in keyOrder;
      var a :| 0 <= a < |keyOrder| && keyOrder[a] == k;
      assert collected[a] in groups;
      var i :| 0 <= i < |groups| && groups[i] == collected[a];
      assert groups[i].key == k;
    }
    forall i | 0 <= i < |groups|
      ensures groups[i].key in byKey && byKey[groups[i].key] == groups[i]
    {
      assert groups[i] in collected;
      var a :| 0 <= a < |collected| && collected[a] == groups[i];
    }
  }

  /** One pass of the `buildPeriodGroups` loop keeps the summary. */
  lemma SummarizeStep(es: seq<HistoryEntry>, e: HistoryEntry, before: map<string, PeriodGroup>,
                      after: map<string, PeriodGroup>, period: HistoryEntry -> string)
    requires Summarizes(es, before, period)
    requires var key := period(e);
      if key !in before then after == before[key := PeriodGroup(key, key, e.updatedAt)]
      else if e.updatedAt > before[key].latest then after == before[key := before[key].(latest := e.updatedAt)]
      else after == before
    ensures Summarizes(es + [e], after, period)
  {
    var es' := es + [e];
    var key := period(e);
    forall j | 0 <= j < |es'|
      ensures period(es'[j]) in after
    {
      if j < |es| {
        assert es'[j] == es[j];
      }
    }
    forall k | k in after
      ensures NewestOfPeriod(es', period, k, after[k].latest)
    {
      var latest := after[k].latest;
      if k == key && latest == e.updatedAt {
        assert es'[|es|] == e;
      } else {
        var j :| 0 <= j < |es| && period(es[j]) == k && es[j].updatedAt == before[k].latest;
        assert es'[j] == es[j];
      }
      forall j | 0 <= j < |es'| && period(es'[j]) == k
        ensures es'[j].updatedAt <= latest
      {
        if j < |es| {
          assert es'[j] == es[j];
        }
      }
    }
  }

  // ----------------------------------------------------- period selection

  /** The value an HTML select takes when assigned `v`: `v` if it is one of its
      options, else the empty string. */
  function SelectValue(options: seq<string>, v: string): string {
    if v in options then v else ""
  }

  function PeriodOptions(groups: seq<PeriodGroup>): seq<string> {
    ["all"] + seq(|groups|, i requires 0 <= i < |groups| => groups[i].key)
  }

  /** `fillPeriodOptions`: the select's value after its options are rebuilt
      and `selected` is put back. */
  function FillPeriodOptions(groups: seq<PeriodGroup>, selected: string): string {
    var options := PeriodOptions(groups);
    var value := SelectValue(options, if selected != "" then selected else "all");
    if value != selected && value != "all" then SelectValue(options, "all") else value
  }

  ghost predicate IsGroupKey(groups: seq<PeriodGroup>, k: string) {
    exists i :: 0 <= i < |groups| && groups[i].key == k
  }

  ghost predicate NoReservedKey(groups: seq<PeriodGroup>) {
    forall i :: 0 <= i < |groups| ==> groups[i].key != "all" && groups[i].key != ""
  }

  /** The period `render` keeps: the previous selection while some group still
      has that key, "all" once it is stale. */
  function RenderPeriod(groups: seq<PeriodGroup>, selected: string): (period: string)
    ensures NoReservedKey(groups) ==> period == if IsGroupKey(groups, selected) then selected else "all"
  {
    var value := FillPeriodOptions(groups, selected);
    var options := PeriodOptions(groups);
    assert forall k :: k in options[1..] <==> IsGroupKey(groups, k) by {
      forall k
        ensures k in options[1..] <==> IsGroupKey(groups, k)
      {
        if IsGroupKey(groups, k) {
          var i :| 0 <= i < |groups| && groups[i].key == k;
          assert options[1..][i] == k;
        }
      }
    }
    assert options == ["all"] + options[1..];
    var hasSelection := exists i :: 0 <= i < |groups| && groups[i].key == value;
    if hasSelection then value else "all"
  }

  /** `entries.filter(…)` on the period key. */
  function InPeriod(entries: seq<HistoryEntry>, period: string, g: Granularity,
                    cal: int -> CalendarDate): (r: seq<HistoryEntry>)
    ensures forall e :: e in r <==> e in entries && PeriodOf(e, g, cal) == period
  {
    Filter(entries, e => PeriodOf(e, g, cal) == period)
  }

  /** The entries of `s` that `keep` accepts, in their order (`Array.prototype.filter`). */
  function Filter<T(!new)>(s: seq<T>, keep: T -> bool): (r: seq<T>)
    ensures forall x :: x in r <==> x in s && keep(x)
  {
    if s == [] then [] else (if keep(s[0]) then [s[0]] else []) + Filter(s[1..], keep)
  }

  /** Filtering acts on each stretch of the list separately, so what is kept
   *  keeps its order and its multiplicity. */
  lemma {:induction false} FilterAppend<T(!new)>(a: seq<T>, b: seq<T>, keep: T -> bool)
    ensures Filter(a + b, keep) == Filter(a, keep) + Filter(b, keep)
  {
    if a == [] {
      assert a + b == b;
    } else {
      assert (a + b)[0] == a[0] && (a + b)[1..] == a[1..] + b;
      FilterAppend(a[1..], b, keep);
    }
  }

  /** The entries of a period drawn from two stretches of the newest-first list
   *  are those of the first stretch followed by those of the second. */
  lemma InPeriodAppend(a: seq<HistoryEntry>, b: seq<HistoryEntry>, period: string,
                       g: Granularity, cal: int -> CalendarDate)
    ensures InPeriod(a + b, period, g, cal) == InPeriod(a, period, g, cal) + InPeriod(b, period, g, cal)
  {
    FilterAppend(a, b, e => PeriodOf(e, g, cal) == period);
  }

  /** The list `render` draws for the kept period. */
  function Filtered(entries: seq<HistoryEntry>, period: string, g: Granularity,
                    cal: int -> CalendarDate): seq<HistoryEntry>
  {
    if period == "all" then entries else InPeriod(entries, period, g, cal)
  }

  /** With groups built from the entries themselves, the list `render` draws is
      never empty because of a stale period: either the selection is "all" and
      every entry is drawn, or it is a period that some entry falls in, and
      exactly the entries of that period are drawn. */
  lemma RenderedPeriodIsNeverStale(entries: seq<HistoryEntry>, groups: seq<PeriodGroup>,
                                   selected: string, g: Granularity, cal: int -> CalendarDate)
    requires forall i :: 0 <= i < |groups| ==>
               exists j :: 0 <= j < |entries| && PeriodOf(entries[j], g, cal) == groups[i].key
    ensures var period := RenderPeriod(groups, selected);
      && (period == "all" ==> Filtered(entries, period, g, cal) == entries)
      && (period != "all" ==>
            && Filtered(entries, period, g, cal) != []
            && forall e :: e in Filtered(entries, period, g, cal) <==> e in entries && PeriodOf(e, g, cal) == period)
  {
    forall i | 0 <= i < |groups|
      ensures groups[i].key != "all" && groups[i].key != ""
    {
      var j :| 0 <= j < |entries| && PeriodOf(entries[j], g, cal) == groups[i].key;
      PeriodKeyIsNotReserved(cal(entries[j].updatedAt), g);
    }
    var period := RenderPeriod(groups, selected);
    if period != "all" {
      var i :| 0 <= i < |groups| && groups[i].key == period;
      var j :| 0 <= j < |entries| && PeriodOf(entries[j], g, cal) == groups[i].key;
      assert entries[j] in InPeriod(entries, period, g, cal);
    }
  }
}
