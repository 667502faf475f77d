/** The values a stored note record is made of, as JavaScript sees them after
 *  `chrome.storage` hands them back, and the two coercions the program applies
 *  to them: `Boolean(v)` and `Number(v)` (through `finiteOr`). */
module Values {
  import opened Text

  datatype Option<+T> = None | Some(value: T)

  /** One entry of a note's `items` array. The program itself writes the first
      two shapes (a dropped image, a YouTube link card); any other entry found in
      storage is carried along untouched, represented by its serialized form. */
  datatype Item =
    | Image(src: string, name: string)
    | YouTube(url: string, videoId: string, title: string, thumbnail: string)
    | Other(json: string)

  /** A JavaScript value as far as the note code can tell values apart: numbers
      are the finite integers plus NaN and the two infinities, an array is an
      array of items, any other object is `Obj`. Arrays of numbers or strings
      (where `Number([5])` is 5) have no value here: a stored note's fields
      hold either items or scalars. */
  datatype JsValue =
    | Undefined
    | Null
    | Bool(b: bool)
    | Num(n: int)
    | NaN
    | Infinity(negative: bool)
    | Str(s: string)
    | Arr(elems: seq<Item>)
    | Obj

  /** `Boolean(v)`. */
  function Truthy(v: JsValue): bool {
    match v
    case Undefined => false
    case Null => false
    case Bool(b) => b
    case Num(n) => n != 0
    case NaN => false
    case Infinity(_) => true
    case Str(s) => s != ""
    case Arr(_) => true
    case Obj => true
  }

  /** `Number(s)` for a string, restricted to what an integer model can hold:
      surrounding white space is ignored, the empty string is 0, and an optional
      sign followed by decimal digits is read as that integer. Every other string
      is reported as not finite. */
  function StringToNumber(s: string): Option<int> {
    var t := Trim(s);
    if t == [] then Some(0)
    else if (t[0] == '-' || t[0] == '+') && |t| > 1 && AllDigits(t[1..]) then
      var m: int := DigitsValue(t[1..]);
      Some(if t[0] == '-' then -m else m)
    else if AllDigits(t) then Some(DigitsValue(t))
    else None
  }

  /** `Number(v)` when that is finite; `None` for NaN and the infinities. */
  function ToNumber(v: JsValue): Option<int> {
    match v
    case Undefined => None
    case Null => Some(0)
    case Bool(b) => Some(if b then 1 else 0)
    case Num(n) => Some(n)
    case NaN => None
    case Infinity(_) => None
    case Str(s) => StringToNumber(s)
    // `[]` converts through the empty string; an array holding an object
    // converts through "[object Object]", which is not a number.
    case Arr(elems) => if elems == [] then Some(0) else None
    case Obj => None
  }

  /** `finiteOr(value, fallback)`: the number `value` converts to if finite,
      else `fallback`. */
  function FiniteOr(v: JsValue, fallback: int): (r: int)
    ensures v.Num? ==> r == v.n
    ensures v.Null? || v == Bool(false) || v == Str("") || v == Arr([]) ==> r == 0
    ensures v == Bool(true) ==> r == 1
    ensures v.Undefined? || v.NaN? || v.Infinity? || v.Obj? ==> r == fallback
  {
    match ToNumber(v)
    case Some(n) => n
    case None => fallback
  }

  /** A non-empty run of digits reads as the number it denotes. */
  lemma ReadsDigits(d: string)
    requires d != [] && AllDigits(d)
    ensures StringToNumber(d) == Some(DigitsValue(d))
  {
    assert IsDigit(d[0]) && IsDigit(d[|d| - 1]);
    TrimKeepsPrintable(d);
    assert Trim(d) == d && d[0] != '-' && d[0] != '+';
  }

  /** A minus sign in front of a run of digits reads as the negated number. */
  lemma ReadsNegatedDigits(d: string)
    requires d != [] && AllDigits(d)
    ensures StringToNumber("-" + d) == Some(-(DigitsValue(d) as int))
  {
    var t := "-" + d;
    assert t[0] == '-' && t[1..] == d && t[|t| - 1] == d[|d| - 1] && IsDigit(d[|d| - 1]);
    TrimKeepsPrintable(t);
    assert Trim(t) == t && |t| > 1;
  }

  /** A number that was written out as a string still converts back to itself. */
  lemma FiniteOrReadsDecimalStrings(n: int, fallback: int)
    ensures FiniteOr(Str(IntToString(n)), fallback) == n
  {
    var m: nat := if n < 0 then -n else n;
    DigitsValueOfNatToString(m);
    if n < 0 {
      ReadsNegatedDigits(NatToString(m));
    } else {
      ReadsDigits(NatToString(m));
    }
  }
}
