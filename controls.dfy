/** The keyboard shortcut that creates a note, and the `clamp` used to keep
    dragged panels on screen. */
module Controls {
  import opened Text

  /** The fields of a `keydown` event that `isCreateShortcut` reads. */
  datatype KeyEvent = KeyEvent(key: string, code: string, altKey: bool, ctrlKey: bool,
                               metaKey: bool, shiftKey: bool, repeat: bool)

  /** `isCreateShortcut(event)`: Alt+N, with no other modifier and not a key repeat. */
  function IsCreateShortcut(e: KeyEvent): (r: bool)
    ensures r ==> e.altKey && !e.ctrlKey && !e.metaKey && !e.shiftKey && !e.repeat
  {
    if e.repeat || !e.altKey || e.ctrlKey || e.metaKey || e.shiftKey then false
    else e.code == "KeyN" || ToLowerAscii(e.key) == "n"
  }

  /** The shortcut fires exactly for Alt alone with the physical N key or a key
      value of "n" or "N", and never on a repeat. */
  lemma ShortcutExactly(e: KeyEvent)
    ensures IsCreateShortcut(e) <==>
      && e.altKey && !e.ctrlKey && !e.metaKey && !e.shiftKey && !e.repeat
      && (e.code == "KeyN" || e.key == "n" || e.key == "N")
  {
    if ToLowerAscii(e.key) == "n" {
      assert |e.key| == 1 && LowerChar(e.key[0]) == 'n';
      assert e.key == [e.key[0]];
    }
    if e.key == "N" {
      assert ToLowerAscii(e.key)[0] == LowerChar('N') == 'n';
    }
    if e.key == "n" {
      assert ToLowerAscii(e.key)[0] == 'n';
    }
  }

  /** `clamp(value, min, max)`, that is `Math.min(max, Math.max(min, value))`. */
  function Clamp(value: int, lo: int, hi: int): (r: int)
    ensures r <= hi
    ensures lo <= hi ==> lo <= r
    ensures lo <= value <= hi ==> r == value
    ensures value < lo && lo <= hi ==> r == lo
    ensures hi < value ==> r == hi
    ensures hi < lo ==> r == hi
  {
    var raised := if lo > value then lo else value;
    if hi < raised then hi else raised
  }

}
