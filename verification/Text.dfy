/** String primitives the automation relies on: .NET white space and
    String.Trim, ordinal and ordinal-ignore-case equality, substring search
    (String.Contains) and the digit scanning behind the `\d+` patterns. */
module Text {

  datatype Option<T> = None | Some(value: T)

  /** Char.IsWhiteSpace: the Unicode space, line and paragraph separators
      plus U+0009..U+000D, U+0085 and U+00A0. */
  predicate IsWhiteSpace(c: char) {
    var n := c as int;
    (9 <= n <= 13) || n == 0x20 || n == 0x85 || n == 0xA0 || n == 0x1680
    || (0x2000 <= n <= 0x200A) || n == 0x2028 || n == 0x2029 || n == 0x202F
    || n == 0x205F || n == 0x3000
  }

  /** String.IsNullOrEmpty on a nullable string. */
  predicate IsNullOrEmpty(s: Option<string>) {
    s.None? || s.value == []
  }

  /** String.IsNullOrWhiteSpace on a string that cannot be null. */
  predicate IsBlank(s: string) {
    forall i :: 0 <= i < |s| ==> IsWhiteSpace(s[i])
  }

  /** String.IsNullOrWhiteSpace on a nullable string. */
  predicate IsNullOrWhiteSpace(s: Option<string>) {
    s.None? || IsBlank(s.value)
  }

  /** Drops leading white space. */
  function TrimStart(s: string): string {
    if s != [] && IsWhiteSpace(s[0]) then TrimStart(s[1..]) else s
  }

  /** TrimStart removes a prefix made of white space only and stops at the
      first other character. */
  lemma {:induction false} TrimStartShape(s: string)
    ensures var t := TrimStart(s);
            && |t| <= |s| && t == s[|s| - |t|..]
            && (forall i :: 0 <= i < |s| - |t| ==> IsWhiteSpace(s[i]))
            && (t != [] ==> !IsWhiteSpace(t[0]))
  {
    if s != [] && IsWhiteSpace(s[0]) {
      TrimStartShape(s[1..]);
      var t := TrimStart(s);
      forall i | 1 <= i < |s| - |t| ensures IsWhiteSpace(s[i]) {
        assert s[1..][i - 1] == s[i];
      }
    }
  }

  /** Drops trailing white space. */
  function TrimEnd(s: string): string {
    if s != [] && IsWhiteSpace(s[|s| - 1]) then TrimEnd(s[..|s| - 1]) else s
  }

  /** TrimEnd removes a suffix made of white space only and stops at the last
      other character. */
  lemma {:induction false} TrimEndShape(s: string)
    ensures var t := TrimEnd(s);
            && |t| <= |s| && t == s[..|t|]
            && (forall i :: |t| <= i < |s| ==> IsWhiteSpace(s[i]))
            && (t != [] ==> !IsWhiteSpace(t[|t| - 1]))
  {
    if s != [] && IsWhiteSpace(s[|s| - 1]) {
      TrimEndShape(s[..|s| - 1]);
      var t := TrimEnd(s);
      forall i | |t| <= i < |s| - 1 ensures IsWhiteSpace(s[i]) {
        assert s[..|s| - 1][i] == s[i];
      }
    }
  }

  /** String.Trim. */
  function Trim(s: string): string {
    TrimEnd(TrimStart(s))
  }

  /** What Trim leaves has no white space at either end, is empty exactly when
      `s` is all white space, and is `s` itself when `s` has no white space at
      either end. */
  lemma {:induction false} TrimShape(s: string)
    ensures var t := Trim(s);
            && |t| <= |s|
            && (t != [] ==> !IsWhiteSpace(t[0]) && !IsWhiteSpace(t[|t| - 1]))
            && (t == [] <==> IsBlank(s))
            && (s != [] && !IsWhiteSpace(s[0]) && !IsWhiteSpace(s[|s| - 1]) ==> t == s)
  {
    var front := TrimStart(s);
    TrimStartShape(s);
    TrimEndShape(front);
    var t := TrimEnd(front);
    var lo := |s| - |front|;
    if t != [] {
      assert t[0] == front[0];
      assert !IsWhiteSpace(s[lo]);
    } else {
      assert front == [];
      forall i | 0 <= i < |s| ensures IsWhiteSpace(s[i]) { }
    }
    if s != [] && !IsWhiteSpace(s[0]) && !IsWhiteSpace(s[|s| - 1]) {
      assert front == s;
    }
  }

  /** The upper-case mapping OrdinalIgnoreCase applies, restricted to ASCII. */
  function UpperAscii(c: char): (u: char)
    ensures 'a' <= c <= 'z' ==> 'A' <= u <= 'Z' && u as int == c as int - 32
    ensures !('a' <= c <= 'z') ==> u == c
  {
    if 'a' <= c <= 'z' then (c as int - 32) as char else c
  }

  /** The string upper-cased letter by letter: how a case-insensitive
      pattern match sees its input, ASCII folding. */
  function UpperAll(s: string): (u: string)
    ensures |u| == |s| && forall i :: 0 <= i < |s| ==> u[i] == UpperAscii(s[i])
  {
    seq(|s|, i requires 0 <= i < |s| => UpperAscii(s[i]))
  }

  /** String.Equals(a, b, StringComparison.OrdinalIgnoreCase), ASCII folding. */
  predicate EqualsIgnoreCase(a: string, b: string)
    decreases |a|
  {
    |a| == |b| && (a == [] || (UpperAscii(a[0]) == UpperAscii(b[0]) && EqualsIgnoreCase(a[1..], b[1..])))
  }

  /** Ignoring case, two strings are equal exactly when they agree position by
      position after upper-casing. */
  lemma {:induction false} EqualsIgnoreCasePointwise(a: string, b: string)
    ensures EqualsIgnoreCase(a, b) <==> |a| == |b| && forall i :: 0 <= i < |a| ==> UpperAscii(a[i]) == UpperAscii(b[i])
    decreases |a|
  {
    if |a| == |b| && a != [] {
      EqualsIgnoreCasePointwise(a[1..], b[1..]);
      if forall i :: 0 <= i < |a| ==> UpperAscii(a[i]) == UpperAscii(b[i]) {
        assert forall i :: 0 <= i < |a| - 1 ==> UpperAscii(a[1..][i]) == UpperAscii(b[1..][i]) by {
          forall i | 0 <= i < |a| - 1 ensures UpperAscii(a[1..][i]) == UpperAscii(b[1..][i]) {
            assert a[1..][i] == a[i + 1] && b[1..][i] == b[i + 1];
          }
        }
      }
      if EqualsIgnoreCase(a, b) {
        forall i | 0 <= i < |a| ensures UpperAscii(a[i]) == UpperAscii(b[i]) {
          if i > 0 { assert a[1..][i - 1] == a[i] && b[1..][i - 1] == b[i]; }
        }
      }
    }
  }

  /** `sub` occurs in `s` starting at position `i`. */
  predicate OccursAt(s: string, sub: string, i: nat) {
    i + |sub| <= |s| && s[i..i + |sub|] == sub
  }

  /** String.Contains. */
  predicate Contains(s: string, sub: string) {
    exists i: nat | i <= |s| :: OccursAt(s, sub, i)
  }

  /** A string built around `sub` contains it. */
  lemma ContainsInside(p: string, sub: string, q: string)
    ensures Contains(p + sub + q, sub)
  {
    var s := p + sub + q;
    assert s[|p|..|p| + |sub|] == sub;
    assert OccursAt(s, sub, |p|);
  }

  /** A string lacking one of the characters of `sub` cannot contain `sub`. */
  lemma MissingCharacter(s: string, sub: string, k: nat)
    requires k < |sub| && sub[k] !in s
    ensures !Contains(s, sub)
  {
    forall i: nat | i <= |s| ensures !OccursAt(s, sub, i) {
      if i + |sub| <= |s| {
        assert s[i..i + |sub|][k] == s[i + k];
      }
    }
  }

  predicate IsDigit(c: char) {
    '0' <= c <= '9'
  }

  /** `marker` occurs at `i` and is followed by at least one digit: where the
      regular expression `marker\d+` can match. */
  predicate DigitsFollowAt(s: string, marker: string, i: nat) {
    OccursAt(s, marker, i) && i + |marker| < |s| && IsDigit(s[i + |marker|])
  }

  /** The leftmost position at or after `from` where `marker\d+` matches,
      which is where a left-to-right regular-expression search stops. */
  function FindDigitsAfter(s: string, marker: string, from: nat): (r: Option<nat>)
    requires from <= |s|
    decreases |s| - from
    ensures r.Some? ==> from <= r.value < |s| && DigitsFollowAt(s, marker, r.value)
    ensures r.Some? ==> forall j :: from <= j < r.value ==> !DigitsFollowAt(s, marker, j)
    ensures r.None? ==> forall j: nat :: from <= j ==> !DigitsFollowAt(s, marker, j)
  {
    if from == |s| then None
    else if DigitsFollowAt(s, marker, from) then Some(from)
    else FindDigitsAfter(s, marker, from + 1)
  }

  /** The maximal run of digits starting at `i`: what a greedy `\d+` takes. */
  function DigitRun(s: string, i: nat): (r: string)
    requires i <= |s|
    decreases |s| - i
    ensures i + |r| <= |s| && r == s[i..i + |r|]
    ensures forall k :: 0 <= k < |r| ==> IsDigit(r[k])
    ensures i + |r| == |s| || !IsDigit(s[i + |r|])
  {
    if i < |s| && IsDigit(s[i]) then [s[i]] + DigitRun(s, i + 1) else []
  }
}
