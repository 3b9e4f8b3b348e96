/**
 * Two helpers of scripts/main.js: `clamp0to100`, which turns a volume into an integer
 * percentage, and `escapeHTML`, which makes text safe to place in markup.
 */
module JukeboxHelpers {
  import opened JsCore

  /** `Math.round` on a finite value: the nearest integer, halves rounding up. */
  function Round(x: real): (r: int)
    ensures r as real - 0.5 <= x < r as real + 0.5
  {
    (x + 0.5).Floor
  }

  /**
   * `clamp0to100(n)` on the number `Number(n)`: an integer in [0, 100]; NaN and zero give 0,
   * values below the range give 0, values above it give 100, and values inside it are rounded
   * to the nearest integer.
   */
  function Clamp0To100(n: JsNumber): (r: int)
    ensures 0 <= r <= 100
    ensures !Truthy(n) ==> r == 0
    ensures n.NegInfinity? || (n.Num? && n.value < 0.0) ==> r == 0
    ensures n.PosInfinity? || (n.Num? && n.value > 100.0) ==> r == 100
    ensures n.Num? && 0.0 <= n.value <= 100.0 ==> r as real - 0.5 <= n.value < r as real + 0.5
  {
    match Or(n, Num(0.0))
    case NaN => 0
    case NegInfinity => 0
    case PosInfinity => 100
    case Num(v) => if v < 0.0 then 0 else if v > 100.0 then 100 else Round(v)
  }

  /** Every integer percentage comes back unchanged. */
  lemma ClampKeepsPercentages(k: int)
    requires 0 <= k <= 100
    ensures Clamp0To100(Num(k as real)) == k
  {
    assert (k as real + 0.5).Floor == k;
  }

  /** Clamping a clamped value changes nothing. */
  lemma ClampIdempotent(n: JsNumber)
    ensures Clamp0To100(Num(Clamp0To100(n) as real)) == Clamp0To100(n)
  {
    ClampKeepsPercentages(Clamp0To100(n));
  }

  /** The five characters `escapeHTML` replaces. */
  predicate IsSpecial(c: char) {
    c == '&' || c == '<' || c == '>' || c == '"' || c == '\''
  }

  /** The replacement `escapeHTML` uses for one character. */
  function EscapeChar(c: char): (r: string)
    ensures !IsSpecial(c) ==> r == [c]
    ensures IsSpecial(c) ==> |r| >= 4 && r[0] == '&' && r[|r| - 1] == ';'
  {
    if c == '&' then "&amp;"
    else if c == '<' then "&lt;"
    else if c == '>' then "&gt;"
    else if c == '"' then "&quot;"
    else if c == '\'' then "&#39;"
    else [c]
  }

  /** `t` begins with one of the five entities `escapeHTML` produces. */
  predicate StartsWithEntity(t: string) {
    "&amp;" <= t || "&lt;" <= t || "&gt;" <= t || "&quot;" <= t || "&#39;" <= t
  }

  /**
   * `escapeHTML(s)`: the output holds none of `<`, `>`, `"` and `'`, and text without any of
   * the five special characters is returned as it is.
   */
  function EscapeHtml(s: string): (r: string)
    ensures forall k :: 0 <= k < |r| ==> r[k] != '<' && r[k] != '>' && r[k] != '"' && r[k] != '\''
    ensures (forall k :: 0 <= k < |s| ==> !IsSpecial(s[k])) ==> r == s
    decreases |s|
  {
    if s == [] then []
    else
      var e := EscapeChar(s[0]);
      var rest := EscapeHtml(s[1..]);
      assert forall k :: 0 <= k < |e| ==> e[k] != '<' && e[k] != '>' && e[k] != '"' && e[k] != '\'';
      assert forall k :: 0 <= k < |e + rest| ==> (e + rest)[k] == if k < |e| then e[k] else rest[k - |e|];
      e + rest
  }

  /** The replacement of a special character is itself one of the five entities. */
  lemma EscapedSpecialStartsEntity(c: char, t: string)
    requires IsSpecial(c)
    ensures StartsWithEntity(EscapeChar(c) + t)
  {
    var e := EscapeChar(c);
    assert (e + t)[..|e|] == e;
  }

  /** Every `&` in `r` begins one of the five entities. */
  predicate AmpersandsStartEntities(r: string) {
    forall k :: 0 <= k < |r| && r[k] == '&' ==> StartsWithEntity(r[k..])
  }

  /** Every `&` in the output of `escapeHTML` begins one of the five entities. */
  lemma {:induction false} EscapedAmpersandsStartEntities(s: string)
    ensures AmpersandsStartEntities(EscapeHtml(s))
    decreases |s|
  {
    if s != [] {
      var e := EscapeChar(s[0]);
      var rest := EscapeHtml(s[1..]);
      var r := EscapeHtml(s);
      assert r == e + rest;
      EscapedAmpersandsStartEntities(s[1..]);
      forall k | 0 <= k < |r| && r[k] == '&' ensures StartsWithEntity(r[k..]) {
        if k < |e| {
          assert k == 0 && IsSpecial(s[0]);
          assert r[k..] == e + rest;
          EscapedSpecialStartsEntity(s[0], rest);
          assert StartsWithEntity(r[k..]);
        } else {
          var j := k - |e|;
          assert 0 <= j < |rest| && rest[j] == '&';
          assert r[k..] == rest[j..];
        }
      }
    }
  }

  /** Decoding of the five entities: the inverse of `escapeHTML`. */
  function DecodeEntities(t: string): string
    decreases |t|
  {
    if t == [] then []
    else if "&amp;" <= t then "&" + DecodeEntities(t[5..])
    else if "&lt;" <= t then "<" + DecodeEntities(t[4..])
    else if "&gt;" <= t then ">" + DecodeEntities(t[4..])
    else if "&quot;" <= t then "\"" + DecodeEntities(t[6..])
    else if "&#39;" <= t then "'" + DecodeEntities(t[5..])
    else [t[0]] + DecodeEntities(t[1..])
  }

  /** Decoding the replacement of one character gives that character back. */
  lemma DecodeEscapedChar(c: char, t: string)
    ensures DecodeEntities(EscapeChar(c) + t) == [c] + DecodeEntities(t)
  {
    var e := EscapeChar(c);
    var r := e + t;
    assert r[..|e|] == e && r[|e|..] == t;
    assert r[0] == e[0];
    if c == '&' {
      assert "&amp;" <= r;
    } else if c == '<' {
      assert r[1] == 'l';
      assert "&lt;" <= r;
    } else if c == '>' {
      assert r[1] == 'g';
      assert "&gt;" <= r;
    } else if c == '"' {
      assert r[1] == 'q';
      assert "&quot;" <= r;
    } else if c == '\'' {
      assert r[1] == '#';
      assert "&#39;" <= r;
    } else {
      assert r[0] == c && c != '&';
      assert !StartsWithEntity(r) by {
        assert "&amp;"[0] == '&' && "&lt;"[0] == '&' && "&gt;"[0] == '&' && "&quot;"[0] == '&' && "&#39;"[0] == '&';
      }
    }
  }

  /** Escaping loses nothing: decoding the entities gives the original text back. */
  lemma {:induction false} DecodeEscape(s: string)
    ensures DecodeEntities(EscapeHtml(s)) == s
    decreases |s|
  {
    if s != [] {
      assert EscapeHtml(s) == EscapeChar(s[0]) + EscapeHtml(s[1..]);
      DecodeEscapedChar(s[0], EscapeHtml(s[1..]));
      DecodeEscape(s[1..]);
      assert s == [s[0]] + s[1..];
    }
  }
}
