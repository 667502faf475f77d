/** Line slicing in a note's textarea: `getCurrentLine` and `removeRange`,
    used by the Enter-key handler that turns a pasted YouTube link into an item. */
module Editing {

  /** The index of the last '\n' of `s` below `n`, or -1 when there is none. */
  function LastNewlineBelow(s: string, n: nat): (r: int)
    requires n <= |s|
    ensures -1 <= r < n
    ensures r >= 0 ==> s[r] == '\n'
    ensures forall i :: r < i < n ==> s[i] != '\n'
  {
    if n == 0 then -1 else if s[n - 1] == '\n' then n - 1 else LastNewlineBelow(s, n - 1)
  }

  /** The index of the first '\n' of `s` at or after `k`, or -1 when there is none. */
  function FirstNewlineFrom(s: string, k: nat): (r: int)
    requires k <= |s|
    ensures r == -1 || k <= r < |s|
    ensures r >= 0 ==> s[r] == '\n'
    ensures forall i :: k <= i < (if r == -1 then |s| else r) ==> s[i] != '\n'
    decreases |s| - k
  {
    if k == |s| then -1 else if s[k] == '\n' then k else FirstNewlineFrom(s, k + 1)
  }

  /** `s.lastIndexOf("\n", from)` for a non-negative `from`: the search starts
      at `from`, or at the last character when `from` is past it. */
  function LastIndexOfNewline(s: string, from: nat): (r: int)
    ensures -1 <= r < |s| && r <= from
    ensures r >= 0 ==> s[r] == '\n'
    ensures forall i :: r < i < |s| && i <= from ==> s[i] != '\n'
  {
    LastNewlineBelow(s, if from < |s| then from + 1 else |s|)
  }

  /** `s.indexOf("\n", from)` for a non-negative `from`; a start past the end finds nothing. */
  function IndexOfNewline(s: string, from: nat): (r: int)
    ensures r == -1 || (from <= r < |s| && s[r] == '\n')
    ensures forall i :: from <= i < |s| && (r == -1 || i < r) ==> s[i] != '\n'
  {
    if from <= |s| then FirstNewlineFrom(s, from) else -1
  }

  /** `s.slice(a, b)` for non-negative bounds: clamped to the length, empty when `a >= b`. */
  function Slice(s: string, a: nat, b: nat): (r: string)
    ensures var lo, hi := if a < |s| then a else |s|, if b < |s| then b else |s|;
      r == if lo < hi then s[lo..hi] else []
  {
    var lo := if a < |s| then a else |s|;
    var hi := if b < |s| then b else |s|;
    if lo < hi then s[lo..hi] else []
  }

  datatype Line = Line(start: nat, end: nat, text: string)

  /** `getCurrentLine(value, caret)`: the line holding the caret. `start` is just
      after the last '\n' at or before `caret - 1`, `end` is the first '\n' at or
      after `caret` (or the length). */
  function GetCurrentLine(value: string, caret: nat): (line: Line)
    ensures line.start <= |value| && line.end <= |value|
    ensures line.start == 0 || value[line.start - 1] == '\n'
    ensures line.end == |value| || value[line.end] == '\n'
    ensures line.text == if line.start <= line.end then value[line.start..line.end] else []
    ensures forall i :: 0 <= i < |line.text| ==> line.text[i] != '\n'
    // the caret lies inside the line, except in one corner case
    ensures line.start > line.end <==> caret == 0 && |value| > 0 && value[0] == '\n'
    ensures line.start <= line.end ==> line.start <= caret && (caret <= |value| ==> caret <= line.end)
    ensures line.start > line.end ==> line.start == 1 && line.end == 0
  {
    var from := if caret >= 1 then caret - 1 else 0;
    var start := LastIndexOfNewline(value, from) + 1;
    var found := IndexOfNewline(value, caret);
    var end := if found == -1 then |value| else found;
    Line(start, end, Slice(value, start, end))
  }

  /** No run of three '\n' anywhere in `s`. */
  predicate NoTripleNewline(s: string) {
    forall i :: 0 <= i < |s| - 2 ==> !(s[i] == '\n' && s[i + 1] == '\n' && s[i + 2] == '\n')
  }

  /** `s` with every '\n' removed. */
  function Unbroken(s: string): (r: string)
    ensures |r| <= |s|
  {
    if s == [] then [] else (if s[0] == '\n' then [] else [s[0]]) + Unbroken(s[1..])
  }

  /** `s.replace(/\n{3,}/g, "\n\n")`: every run of three or more '\n' shrinks to two.
      A run of three loses one '\n' and is looked at again, so a longer run
      keeps shrinking until two are left. */
  function CollapseNewlines(s: string): (r: string)
    ensures NoTripleNewline(r)
    ensures |s| > 0 && s[0] != '\n' ==> |r| > 0 && r[0] == s[0]
    ensures |s| > 1 && s[0] == '\n' && s[1] != '\n' ==> |r| > 1 && r[0] == '\n' && r[1] == s[1]
    decreases |s|
  {
    if |s| < 3 then s
    else if s[0] == '\n' && s[1] == '\n' && s[2] == '\n' then CollapseNewlines("\n\n" + s[3..])
    else
      var rest := CollapseNewlines(s[1..]);
      assert s[0] == '\n' ==> s[1..][0] != '\n' || s[1..][1] != '\n';
      [s[0]] + rest
  }

  lemma {:induction false} UnbrokenAppend(a: string, b: string)
    ensures Unbroken(a + b) == Unbroken(a) + Unbroken(b)
  {
    if a != [] {
      assert (a + b)[1..] == a[1..] + b;
      UnbrokenAppend(a[1..], b);
    } else {
      assert a + b == b;
    }
  }

  /** Collapsing only drops '\n': every other character is kept, in order. */
  lemma {:induction false} CollapseKeepsText(s: string)
    ensures Unbroken(CollapseNewlines(s)) == Unbroken(s)
    decreases |s|
  {
    if |s| < 3 {
    } else if s[0] == '\n' && s[1] == '\n' && s[2] == '\n' {
      var t := "\n\n" + s[3..];
      CollapseKeepsText(t);
      assert s == "\n" + t;
    } else {
      CollapseKeepsText(s[1..]);
      assert s == [s[0]] + s[1..];
      UnbrokenAppend([s[0]], s[1..]);
      UnbrokenAppend([s[0]], CollapseNewlines(s[1..]));
    }
  }

  /** Text without a run of three '\n' is left as it is; so collapsing twice
      is collapsing once. */
  lemma {:induction false} CollapseKeepsTidyText(s: string)
    requires NoTripleNewline(s)
    ensures CollapseNewlines(s) == s
    decreases |s|
  {
    if |s| >= 3 {
      assert !(s[0] == '\n' && s[1] == '\n' && s[2] == '\n');
      assert NoTripleNewline(s[1..]) by {
        forall i | 0 <= i < |s[1..]| - 2
          ensures !(s[1..][i] == '\n' && s[1..][i + 1] == '\n' && s[1..][i + 2] == '\n')
        {
          assert s[1..][i] == s[i + 1] && s[1..][i + 1] == s[i + 2] && s[1..][i + 2] == s[i + 3];
        }
      }
      CollapseKeepsTidyText(s[1..]);
      assert s == [s[0]] + s[1..];
    }
  }

  /** A run of three '\n' collapses as a run of two does, wherever it sits.
      With `CollapseKeepsTidyText` this pins the replacement down: runs of
      three or more shrink to exactly two, everything else stays. */
  lemma {:induction false} CollapseStep(a: string, b: string)
    ensures CollapseNewlines(a + "\n\n\n" + b) == CollapseNewlines(a + "\n\n" + b)
    decreases |a|
  {
    var s, t := a + "\n\n\n" + b, a + "\n\n" + b;
    if a == [] {
      assert s == "\n\n\n" + b && t == "\n\n" + b;
      assert "\n\n" + s[3..] == t;
    } else {
      assert s[1..] == a[1..] + "\n\n\n" + b;
      assert t[1..] == a[1..] + "\n\n" + b;
      forall i | 0 <= i < 3 ensures s[i] == t[i] {
        if i < |a| {
          assert s[i] == a[i] && t[i] == a[i];
        }
      }
      CollapseStep(a[1..], b);
      CollapseSameHead(s, t);
    }
  }

  /** Two strings that agree on their first three characters and whose tails
      after the first collapse alike collapse alike. */
  lemma CollapseSameHead(s: string, t: string)
    requires |s| >= 3 && |t| >= 3 && s[0] == t[0] && s[1] == t[1] && s[2] == t[2]
    requires CollapseNewlines(s[1..]) == CollapseNewlines(t[1..])
    ensures CollapseNewlines(s) == CollapseNewlines(t)
  {
    if s[0] == '\n' && s[1] == '\n' && s[2] == '\n' {
      assert "\n\n" + s[3..] == s[1..];
      assert "\n\n" + t[3..] == t[1..];
    }
  }

  lemma CollapseIdempotent(s: string)
    ensures CollapseNewlines(CollapseNewlines(s)) == CollapseNewlines(s)
  {
    CollapseKeepsTidyText(CollapseNewlines(s));
  }

  /** The two pieces `removeRange` keeps: what lies before `start` and what lies
      from `end` on. */
  function Before(value: string, start: nat): string {
    Slice(value, 0, start)
  }

  function After(value: string, end: nat): string {
    value[if end < |value| then end else |value|..]
  }

  /** `removeRange(value, start, end)`: cut `value[start..end]` out; when the cut
      leaves a '\n' on both sides, one of them goes too; then runs of blank lines
      are collapsed. */
  function RemoveRange(value: string, start: nat, end: nat): (r: string)
    ensures NoTripleNewline(r)
  {
    var before, after := Before(value, start), After(value, end);
    var merged :=
      if |before| > 0 && before[|before| - 1] == '\n' && |after| > 0 && after[0] == '\n'
      then before + after[1..]
      else before + after;
    CollapseNewlines(merged)
  }

  /** `removeRange` only ever drops the cut range and line breaks: the other
      characters of the two kept pieces survive, in order. */
  lemma RemoveRangeKeepsText(value: string, start: nat, end: nat)
    ensures Unbroken(RemoveRange(value, start, end)) == Unbroken(Before(value, start)) + Unbroken(After(value, end))
  {
    var before, after := Before(value, start), After(value, end);
    var merged :=
      if |before| > 0 && before[|before| - 1] == '\n' && |after| > 0 && after[0] == '\n'
      then before + after[1..]
      else before + after;
    CollapseKeepsText(merged);
    UnbrokenAppend(before, after);
    if |before| > 0 && before[|before| - 1] == '\n' && |after| > 0 && after[0] == '\n' {
      UnbrokenAppend(before, after[1..]);
      assert after == "\n" + after[1..];
      UnbrokenAppend("\n", after[1..]);
    }
  }

  /** On tidy text `removeRange` is the plain cut: the two kept pieces are
      joined as they are, except that when both sides of the cut are '\n'
      exactly one of the two goes. Every other line break survives. */
  lemma RemoveRangeOnTidyText(value: string, start: nat, end: nat)
    ensures var before, after := Before(value, start), After(value, end);
      var junction := |before| > 0 && before[|before| - 1] == '\n' && |after| > 0 && after[0] == '\n';
      && (!junction && NoTripleNewline(before + after) ==> RemoveRange(value, start, end) == before + after)
      && (junction && NoTripleNewline(before + after[1..]) ==> RemoveRange(value, start, end) == before + after[1..])
  {
    var before, after := Before(value, start), After(value, end);
    if |before| > 0 && before[|before| - 1] == '\n' && |after| > 0 && after[0] == '\n' {
      if NoTripleNewline(before + after[1..]) {
        CollapseKeepsTidyText(before + after[1..]);
      }
    } else if NoTripleNewline(before + after) {
      CollapseKeepsTidyText(before + after);
    }
  }

  /** Removing the caret's line: the text of the line is gone and nothing else
      but line breaks changes. */
  lemma RemoveLineDropsItsText(value: string, caret: nat)
    requires var line := GetCurrentLine(value, caret); line.start <= line.end
    ensures var line := GetCurrentLine(value, caret);
      Unbroken(RemoveRange(value, line.start, line.end))
        == Unbroken(value[..line.start]) + Unbroken(value[line.end..])
  {
    var line := GetCurrentLine(value, caret);
    RemoveRangeKeepsText(value, line.start, line.end);
  }

  /** A line of its own at the end of the text, with the caret after it: the
      caret's line is exactly that last line. */
  lemma TrailingLine(t: string, link: string)
    requires forall i :: 0 <= i < |link| ==> link[i] != '\n'
    ensures var value := t + "\n" + link;
      GetCurrentLine(value, |value|) == Line(|t| + 1, |value|, link)
  {
    var value := t + "\n" + link;
    assert value[|t|] == '\n';
    forall i | |t| < i < |value| ensures value[i] != '\n' {
      assert value[i] == link[i - |t| - 1];
    }
    var r := LastIndexOfNewline(value, |value| - 1);
    assert r == |t|;
    assert IndexOfNewline(value, |value|) == -1;
    assert value[|t| + 1..] == link;
  }

  /** Cutting away everything after the first line break of `t + "\n" + link`
      leaves `t + "\n"` when `t` has no line break of its own. */
  lemma RemovingAfterFirstBreak(t: string, link: string)
    requires forall i :: 0 <= i < |t| ==> t[i] != '\n'
    ensures var value := t + "\n" + link;
      RemoveRange(value, |t| + 1, |value|) == t + "\n"
  {
    var value := t + "\n" + link;
    assert value[..|t| + 1] == t + "\n";
    assert Before(value, |t| + 1) == t + "\n";
    assert After(value, |value|) == [];
    assert (t + "\n") + [] == t + "\n";
    assert NoTripleNewline(t + "\n") by {
      forall i | 0 <= i < |t + "\n"| - 2 ensures (t + "\n")[i] != '\n' {
        assert (t + "\n")[i] == t[i];
      }
    }
    CollapseKeepsTidyText(t + "\n");
  }

  /** A link typed on a line of its own at the end of the text, with the caret
      after it: the caret's line is exactly the link, and removing that line
      leaves the text before it with its closing line break. */
  lemma RemovingTrailingLine(t: string, link: string)
    requires forall i :: 0 <= i < |t| ==> t[i] != '\n'
    requires forall i :: 0 <= i < |link| ==> link[i] != '\n'
    ensures var value := t + "\n" + link;
      var line := GetCurrentLine(value, |value|);
      && line == Line(|t| + 1, |value|, link)
      && RemoveRange(value, line.start, line.end) == t + "\n"
  {
    TrailingLine(t, link);
    RemovingAfterFirstBreak(t, link);
  }
}
