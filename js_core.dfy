/**
 * The few JavaScript values and built-in operations the module's code relies on:
 * an optional value (null / undefined), numbers with their truthiness, `String.prototype.trim`,
 * `Array.prototype.splice(k, 1)` and the `filter((_, i) => i !== idx)` idiom.
 */
module JsCore {

  /** A value that may be missing (`null` or `undefined` in the source). */
  datatype Option<+T> = None | Some(value: T)

  /** A JavaScript number: NaN, a finite value, or one of the two infinities. */
  datatype JsNumber = NaN | Num(value: real) | PosInfinity | NegInfinity

  /** JavaScript truthiness of a number: NaN and zero are the falsy ones. */
  predicate Truthy(n: JsNumber) {
    !(n.NaN? || (n.Num? && n.value == 0.0))
  }

  /** `a || b` on numbers. */
  function Or(a: JsNumber, b: JsNumber): JsNumber {
    if Truthy(a) then a else b
  }

  /** `a || b` on strings: the empty string is the only falsy string. */
  function OrStr(a: string, b: string): string {
    if a != "" then a else b
  }

  /**
   * The characters `String.prototype.trim` removes: the WhiteSpace and LineTerminator
   * code points of ECMAScript (tab, vertical tab, form feed, space, no-break space,
   * byte order mark, the Space_Separator category, line feed, carriage return,
   * line separator and paragraph separator).
   */
  predicate IsSpace(c: char) {
    || c == '\U{9}' || c == '\U{A}' || c == '\U{B}' || c == '\U{C}' || c == '\U{D}'
    || c == ' ' || c == '\U{A0}' || c == '\U{1680}'
    || ('\U{2000}' <= c <= '\U{200A}')
    || c == '\U{2028}' || c == '\U{2029}' || c == '\U{202F}' || c == '\U{205F}'
    || c == '\U{3000}' || c == '\U{FEFF}'
  }

  predicate AllSpace(s: string) {
    forall k :: 0 <= k < |s| ==> IsSpace(s[k])
  }

  /** The number of white-space characters `s.trimStart()` drops. */
  function LeadingSpace(s: string): (a: nat)
    ensures a <= |s|
    ensures forall k :: 0 <= k < a ==> IsSpace(s[k])
    ensures a < |s| ==> !IsSpace(s[a])
  {
    if s == [] || !IsSpace(s[0]) then 0 else 1 + LeadingSpace(s[1..])
  }

  /** The length `s.trimEnd()` keeps. */
  function TrailingSpaceStart(s: string): (b: nat)
    ensures b <= |s|
    ensures forall k :: b <= k < |s| ==> IsSpace(s[k])
    ensures b > 0 ==> !IsSpace(s[b - 1])
  {
    if s == [] || !IsSpace(s[|s| - 1]) then |s| else TrailingSpaceStart(s[..|s| - 1])
  }

  /**
   * `s.trim()`: the piece of `s` between its leading and its trailing white space. It neither
   * starts nor ends with white space, and it is empty exactly when `s` is all white space.
   */
  function Trim(s: string): (r: string)
    ensures |r| <= |s|
    ensures r != "" ==> !IsSpace(r[0]) && !IsSpace(r[|r| - 1])
    ensures r == "" <==> AllSpace(s)
  {
    var a := LeadingSpace(s);
    var b := TrailingSpaceStart(s);
    if a < b then s[a..b] else ""
  }

  /** Trimming only cuts white space off the ends: the result is a contiguous piece of `s`. */
  lemma TrimIsPiece(s: string)
    ensures exists lo :: 0 <= lo <= |s| - |Trim(s)| && Trim(s) == s[lo..lo + |Trim(s)|]
                         && AllSpace(s[..lo]) && AllSpace(s[lo + |Trim(s)|..])
  {
    var a := LeadingSpace(s);
    var b := TrailingSpaceStart(s);
    if a < b {
      assert Trim(s) == s[a..a + |Trim(s)|];
      assert AllSpace(s[..a]) && AllSpace(s[a + |Trim(s)|..]);
    } else {
      assert AllSpace(s);
      assert Trim(s) == s[0..0];
      assert AllSpace(s[..0]) && AllSpace(s[0 + |Trim(s)|..]);
    }
  }

  /** Trimming twice is trimming once. */
  lemma TrimIdempotent(s: string)
    ensures Trim(Trim(s)) == Trim(s)
  {
    var r := Trim(s);
    if r != "" {
      assert LeadingSpace(r) == 0;
      assert TrailingSpaceStart(r) == |r|;
    }
  }

  /** The index `Array.prototype.splice` starts at for a start argument `k` on an array of length `n`. */
  function SpliceStart(n: nat, k: int): nat {
    if k < 0 then (if n + k < 0 then 0 else n + k) else if k > n then n else k
  }

  /**
   * The array left by `s.splice(k, 1)`: a non-negative `k` removes the element at `k` when there
   * is one, a negative `k` counts from the end (clamped to the first element), and nothing else changes.
   */
  function SpliceOne<T>(s: seq<T>, k: int): (r: seq<T>)
    ensures 0 <= k < |s| ==> r == s[..k] + s[k + 1..]
    ensures k >= |s| ==> r == s
    ensures -|s| <= k < 0 ==> r == s[..|s| + k] + s[|s| + k + 1..]
    ensures k < -|s| && s != [] ==> r == s[1..]
  {
    var st := SpliceStart(|s|, k);
    if st < |s| then s[..st] + s[st + 1..] else s
  }

  /**
   * `s.filter((_, i) => i !== idx)`: exactly the element at `idx` is dropped when it exists,
   * the others keep their order; an index outside the array drops nothing.
   */
  function RemoveAt<T>(s: seq<T>, idx: int): (r: seq<T>)
    ensures 0 <= idx < |s| ==> |r| == |s| - 1
    ensures 0 <= idx < |s| ==> forall j :: 0 <= j < |r| ==> r[j] == s[if j < idx then j else j + 1]
    ensures !(0 <= idx < |s|) ==> r == s
  {
    if 0 <= idx < |s| then s[..idx] + s[idx + 1..] else s
  }

  /**
   * `s.map((a, i) => i === idx ? v : a)`: the element at `idx` becomes `v` when `idx` is an index
   * of `s`, and every other element is kept.
   */
  function ReplaceAt<T>(s: seq<T>, idx: int, v: T): (r: seq<T>)
    ensures |r| == |s|
    ensures forall j :: 0 <= j < |s| && j != idx ==> r[j] == s[j]
    ensures 0 <= idx < |s| ==> r[idx] == v
  {
    if 0 <= idx < |s| then s[idx := v] else s
  }

  /** For the indices the panels pass (never negative) splice and filter remove the same element. */
  lemma SpliceOneIsRemoveAt<T>(s: seq<T>, k: int)
    requires k >= 0
    ensures SpliceOne(s, k) == RemoveAt(s, k)
  {
  }
}
