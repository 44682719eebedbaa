/**
 * The string helpers the handlers use: `str.strip()`, `str.lower()`, `str.upper()`
 * and the substring test `w in s`.
 */
module Text {

  /** Python's `str.isspace()` for one character: the ASCII and Unicode white space. */
  predicate IsSpace(c: char) {
    || c == ' '
    || '\t' <= c <= '\r'
    || '\U{1C}' <= c <= '\U{1F}'
    || c == '\U{85}' || c == '\U{A0}' || c == '\U{1680}'
    || '\U{2000}' <= c <= '\U{200A}'
    || c == '\U{2028}' || c == '\U{2029}' || c == '\U{202F}' || c == '\U{205F}' || c == '\U{3000}'
  }

  predicate AllSpace(s: string) {
    forall i :: 0 <= i < |s| ==> IsSpace(s[i])
  }

  /** Neither end of `s` is white space (the shape `strip` leaves). */
  predicate Trimmed(s: string) {
    s == [] || (!IsSpace(s[0]) && !IsSpace(s[|s| - 1]))
  }

  /** `s.lstrip()`: drops the leading white space. */
  function LStrip(s: string): (r: string)
    ensures |r| <= |s|
    ensures r == [] || !IsSpace(r[0])
  {
    if |s| > 0 && IsSpace(s[0]) then LStrip(s[1..]) else s
  }

  /** `s.rstrip()`: drops the trailing white space. */
  function RStrip(s: string): (r: string)
    ensures |r| <= |s|
    ensures r == [] || !IsSpace(r[|r| - 1])
  {
    if |s| > 0 && IsSpace(s[|s| - 1]) then RStrip(s[..|s| - 1]) else s
  }

  /** What `lstrip` drops is white space, and what it keeps is the rest of `s`. */
  lemma {:induction false} LStripShape(s: string)
    ensures var r := LStrip(s); r == s[|s| - |r|..] && AllSpace(s[..|s| - |r|])
  {
    if |s| > 0 && IsSpace(s[0]) {
      LStripShape(s[1..]);
      var r := LStrip(s);
      assert s[..|s| - |r|] == [s[0]] + s[1..][..|s| - 1 - |r|];
    }
  }

  /** What `rstrip` drops is white space, and what it keeps is the start of `s`. */
  lemma {:induction false} RStripShape(s: string)
    ensures var r := RStrip(s); r == s[..|r|] && AllSpace(s[|r|..])
  {
    if |s| > 0 && IsSpace(s[|s| - 1]) {
      var n := |s| - 1;
      RStripShape(s[..n]);
      var r := RStrip(s);
      assert s[|r|..] == s[..n][|r|..] + [s[n]];
    }
  }

  /** `s.strip()`. */
  function Strip(s: string): (r: string)
    ensures Trimmed(r)
    ensures |r| <= |s|
    ensures r == [] <==> AllSpace(s)
  {
    var t := LStrip(s);
    var r := RStrip(t);
    LStripShape(s);
    RStripShape(t);
    assert r == [] ==> s == s[..|s| - |t|] + t[|r|..];
    r
  }

  /** Leading white space before a word that does not start with white space is exactly what `lstrip` drops. */
  lemma {:induction false} LStripPadded(p: string, t: string)
    requires AllSpace(p)
    requires t == [] || !IsSpace(t[0])
    ensures LStrip(p + t) == t
  {
    if p == [] {
      assert p + t == t;
    } else {
      assert (p + t)[1..] == p[1..] + t;
      LStripPadded(p[1..], t);
    }
  }

  /** Trailing white space after a word that does not end with white space is exactly what `rstrip` drops. */
  lemma {:induction false} RStripPadded(t: string, q: string)
    requires AllSpace(q)
    requires t == [] || !IsSpace(t[|t| - 1])
    ensures RStrip(t + q) == t
  {
    if q == [] {
      assert t + q == t;
    } else {
      var s := t + q;
      assert s[..|s| - 1] == t + q[..|q| - 1];
      RStripPadded(t, q[..|q| - 1]);
    }
  }

  /**
   * `strip` is determined by its shape: whatever white space surrounds a trimmed word,
   * `strip` returns exactly that word.
   */
  lemma StripPadded(p: string, w: string, q: string)
    requires AllSpace(p) && AllSpace(q) && Trimmed(w)
    ensures Strip(p + w + q) == w
  {
    assert p + w + q == p + (w + q);
    if w == [] {
      assert p + w + q == p + q;
      assert AllSpace(p + q) by {
        forall i | 0 <= i < |p + q| ensures IsSpace((p + q)[i]) {
          if i >= |p| { assert (p + q)[i] == q[i - |p|]; }
        }
      }
    } else {
      LStripPadded(p, w + q);
      RStripPadded(w, q);
    }
  }

  /** `strip` is idempotent. */
  lemma StripIdempotent(s: string)
    ensures Strip(Strip(s)) == Strip(s)
  {
    var w := Strip(s);
    StripPadded([], w, []);
    assert [] + w + [] == w;
  }

  /** `c.lower()` for an ASCII letter; every other character is left as it is. */
  function LowerChar(c: char): char {
    if 'A' <= c <= 'Z' then (c as int + 32) as char else c
  }

  /** `c.upper()` for an ASCII letter; every other character is left as it is. */
  function UpperChar(c: char): char {
    if 'a' <= c <= 'z' then (c as int - 32) as char else c
  }

  function ToLower(s: string): (r: string)
    ensures |r| == |s|
    ensures forall i :: 0 <= i < |r| ==> !('A' <= r[i] <= 'Z')
    ensures forall i :: 0 <= i < |s| && !('A' <= s[i] <= 'Z') ==> r[i] == s[i]
  {
    seq(|s|, i requires 0 <= i < |s| => LowerChar(s[i]))
  }

  function ToUpper(s: string): (r: string)
    ensures |r| == |s|
    ensures forall i :: 0 <= i < |r| ==> !('a' <= r[i] <= 'z')
    ensures forall i :: 0 <= i < |s| && !('a' <= s[i] <= 'z') ==> r[i] == s[i]
  {
    seq(|s|, i requires 0 <= i < |s| => UpperChar(s[i]))
  }

  /** Lower-casing twice is lower-casing once. */
  lemma ToLowerIdempotent(s: string)
    ensures ToLower(ToLower(s)) == ToLower(s)
  {
  }

  /** `w` occurs in `s` at position `i` or later. */
  predicate ContainsFrom(s: string, w: string, i: nat)
    decreases |s| - i
  {
    i + |w| <= |s| && (s[i..i + |w|] == w || ContainsFrom(s, w, i + 1))
  }

  /** Python's `w in s` for strings: `w` occurs as a contiguous piece of `s`. */
  predicate Contains(s: string, w: string): (found: bool)
    ensures found ==> |w| <= |s|
    ensures w == [] ==> found
  {
    ContainsFrom(s, w, 0)
  }

  /** `w` sits in `s` starting at index `k`. */
  predicate OccursAt(s: string, w: string, k: nat) {
    k + |w| <= |s| && s[k..k + |w|] == w
  }

  /** The scan from `i` finds `w` exactly when `w` occurs at some index `k >= i`. */
  lemma {:induction false} ContainsFromIff(s: string, w: string, i: nat)
    ensures ContainsFrom(s, w, i) <==> exists k: nat {:trigger OccursAt(s, w, k)} :: i <= k && OccursAt(s, w, k)
    decreases |s| - i
  {
    if i + |w| <= |s| {
      ContainsFromIff(s, w, i + 1);
      if exists k: nat {:trigger OccursAt(s, w, k)} :: i <= k && OccursAt(s, w, k) {
        var k: nat :| i <= k && OccursAt(s, w, k);
        if k == i {
          assert s[i..i + |w|] == w;
        } else {
          assert i + 1 <= k && OccursAt(s, w, k);
        }
      }
      if ContainsFrom(s, w, i) && s[i..i + |w|] == w {
        assert OccursAt(s, w, i);
      }
    }
  }

  /** `Contains(s, w)` is Python's `w in s`: `w` occurs at some index of `s`. */
  lemma ContainsIff(s: string, w: string)
    ensures Contains(s, w) <==> exists k: nat {:trigger OccursAt(s, w, k)} :: OccursAt(s, w, k)
  {
    ContainsFromIff(s, w, 0);
  }
}
