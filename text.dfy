/**
  ASCII models of the Python string operations the Korean ticker helpers use:
  `str.strip()`, `str.lower()` / `str.upper()`, `str.zfill()`, the regex class
  `\d`, and `re.sub(r'\D', '', s)`.
 */
module Text {

  /** `\d`, restricted to the ASCII digits. */
  predicate IsDigit(c: char) {
    '0' <= c <= '9'
  }

  /** The ASCII characters `str.isspace()` accepts: TAB, LF, VT, FF, CR,
      the separators 0x1C-0x1F, and SPACE. */
  predicate IsWs(c: char) {
    9 <= c as int <= 13 || 28 <= c as int <= 32
  }

  predicate AllDigits(s: string) {
    forall i :: 0 <= i < |s| ==> IsDigit(s[i])
  }

  predicate HasDigit(s: string) {
    exists i :: 0 <= i < |s| && IsDigit(s[i])
  }

  predicate AllWs(s: string) {
    forall i :: 0 <= i < |s| ==> IsWs(s[i])
  }

  /** Neither end of `s` is whitespace: what `strip()` leaves behind. */
  predicate Stripped(s: string) {
    s == [] || (!IsWs(s[0]) && !IsWs(s[|s| - 1]))
  }

  /** Empty pieces can be dropped from a concatenation. */
  lemma ConcatEmpty(a: string, b: string)
    ensures [] + a + [] == a
    ensures [] + a + [] + [] == a
    ensures a + [] + [] + b == a + b
  {
  }

  // ---------------------------------------------------------------- case mapping

  function LowerChar(c: char): char {
    if 'A' <= c <= 'Z' then (c as int + 32) as char else c
  }

  function UpperChar(c: char): char {
    if 'a' <= c <= 'z' then (c as int - 32) as char else c
  }

  function ToLower(s: string): string {
    seq(|s|, i requires 0 <= i < |s| => LowerChar(s[i]))
  }

  function ToUpper(s: string): string {
    seq(|s|, i requires 0 <= i < |s| => UpperChar(s[i]))
  }

  /** `s.lower().startswith(p)` for a lower-case ASCII prefix `p`, one
      character at a time. */
  predicate StartsWithCI(s: string, p: string)
    ensures StartsWithCI(s, p) ==> |p| <= |s|
  {
    p == [] || (s != [] && LowerChar(s[0]) == p[0] && StartsWithCI(s[1..], p[1..]))
  }

  /** The character-wise test is the test on the lower-cased whole. */
  lemma {:induction false} StartsWithCIMeaning(s: string, p: string)
    ensures StartsWithCI(s, p) <==> |p| <= |s| && ToLower(s[..|p|]) == p
  {
    if p != [] && s != [] {
      StartsWithCIMeaning(s[1..], p[1..]);
      if |p| <= |s| {
        assert ToLower(s[..|p|]) == [LowerChar(s[0])] + ToLower(s[1..][..|p| - 1]);
        assert p == [p[0]] + p[1..];
      }
    }
  }

  lemma UpperSlice(s: string, a: nat, b: nat)
    requires a <= b <= |s|
    ensures ToUpper(s)[a..b] == ToUpper(s[a..b])
  {
    assert forall i :: 0 <= i < b - a ==> ToUpper(s)[a..b][i] == ToUpper(s[a..b])[i];
  }

  lemma UpperAppend(a: string, b: string)
    ensures ToUpper(a + b) == ToUpper(a) + ToUpper(b)
  {
    assert forall i :: 0 <= i < |a + b| ==> ToUpper(a + b)[i] == (ToUpper(a) + ToUpper(b))[i];
  }

  lemma UpperIdempotent(s: string)
    ensures ToUpper(ToUpper(s)) == ToUpper(s)
  {
    assert forall i :: 0 <= i < |s| ==> ToUpper(ToUpper(s))[i] == ToUpper(s)[i];
  }

  /** Upper-casing keeps digits digits and letters letters, so a prefix test
      that ignores case and a digit search both see through it. */
  lemma UpperKeepsClasses(s: string)
    ensures HasDigit(ToUpper(s)) == HasDigit(s)
    ensures AllDigits(s) ==> ToUpper(s) == s
    ensures forall p :: StartsWithCI(ToUpper(s), p) == StartsWithCI(s, p)
  {
    var u := ToUpper(s);
    if HasDigit(s) {
      var i :| 0 <= i < |s| && IsDigit(s[i]);
      assert IsDigit(u[i]);
    }
    if HasDigit(u) {
      var i :| 0 <= i < |u| && IsDigit(u[i]);
      assert IsDigit(s[i]);
    }
    if AllDigits(s) {
      assert forall i :: 0 <= i < |s| ==> u[i] == s[i];
    }
    forall p
      ensures StartsWithCI(u, p) == StartsWithCI(s, p)
    {
      StartsWithCIMeaning(u, p);
      StartsWithCIMeaning(s, p);
      if |p| <= |s| {
        assert forall i :: 0 <= i < |p| ==> ToLower(u[..|p|])[i] == ToLower(s[..|p|])[i];
        assert ToLower(u[..|p|]) == ToLower(s[..|p|]);
      }
    }
  }

  // ---------------------------------------------------------------- strip

  /** The number of whitespace characters `strip()` removes from the front. */
  function LeadingWs(s: string): (n: nat)
    ensures n <= |s|
    ensures forall i :: 0 <= i < n ==> IsWs(s[i])
    ensures n == |s| || !IsWs(s[n])
  {
    if |s| > 0 && IsWs(s[0]) then 1 + LeadingWs(s[1..]) else 0
  }

  /** The number of whitespace characters `strip()` removes from the back. */
  function TrailingWs(s: string): (n: nat)
    ensures n <= |s|
    ensures forall i :: |s| - n <= i < |s| ==> IsWs(s[i])
    ensures n == |s| || !IsWs(s[|s| - 1 - n])
  {
    if |s| > 0 && IsWs(s[|s| - 1]) then 1 + TrailingWs(s[..|s| - 1]) else 0
  }

  lemma LeadingWsUnique(s: string, n: nat)
    requires n <= |s|
    requires forall i :: 0 <= i < n ==> IsWs(s[i])
    requires n == |s| || !IsWs(s[n])
    ensures LeadingWs(s) == n
  {
  }

  lemma TrailingWsUnique(s: string, n: nat)
    requires n <= |s|
    requires forall i :: |s| - n <= i < |s| ==> IsWs(s[i])
    requires n == |s| || !IsWs(s[|s| - 1 - n])
    ensures TrailingWs(s) == n
  {
  }

  /** `s.strip()`. */
  function Trim(s: string): (r: string)
    ensures |r| <= |s|
    ensures Stripped(r)
    ensures r == [] <==> AllWs(s)
    ensures HasDigit(r) ==> HasDigit(s)
  {
    var t := s[LeadingWs(s)..];
    var r := t[..|t| - TrailingWs(t)];
    assert AllWs(s) ==> LeadingWs(s) == |s|;
    assert HasDigit(r) ==> HasDigit(s) by {
      if HasDigit(r) {
        var i :| 0 <= i < |r| && IsDigit(r[i]);
        assert r[i] == s[LeadingWs(s) + i];
      }
    }
    r
  }

  /** Stripping a text with whitespace on either side gives back exactly
      the text, provided its own ends are not whitespace. */
  lemma TrimPadded(w1: string, x: string, w2: string)
    requires AllWs(w1) && AllWs(w2) && Stripped(x)
    ensures Trim(w1 + x + w2) == x
  {
    var s := w1 + x + w2;
    if x == [] {
      assert AllWs(s);
    } else {
      LeadingWsUnique(s, |w1|);
      var t := s[|w1|..];
      assert t == x + w2;
      TrailingWsUnique(t, |w2|);
      assert t[..|t| - |w2|] == x;
    }
  }

  lemma UpperWs(s: string)
    ensures forall i :: 0 <= i < |s| ==> IsWs(ToUpper(s)[i]) == IsWs(s[i])
  {
  }

  lemma TrimBounds(s: string, a: nat, b: nat)
    requires a == LeadingWs(s) && b == TrailingWs(s[a..])
    ensures Trim(s) == s[a..|s| - b]
  {
  }

  lemma LeadingWsUpper(s: string)
    ensures LeadingWs(ToUpper(s)) == LeadingWs(s)
  {
    UpperWs(s);
    LeadingWsUnique(ToUpper(s), LeadingWs(s));
  }

  lemma TrailingWsUpper(s: string)
    ensures TrailingWs(ToUpper(s)) == TrailingWs(s)
  {
    UpperWs(s);
    TrailingWsUnique(ToUpper(s), TrailingWs(s));
  }

  lemma TrimUpper(s: string)
    ensures Trim(ToUpper(s)) == ToUpper(Trim(s))
  {
    var u := ToUpper(s);
    var a := LeadingWs(s);
    LeadingWsUpper(s);
    var t := s[a..];
    UpperSlice(s, a, |s|);
    assert u[a..] == ToUpper(t);
    var b := TrailingWs(t);
    TrailingWsUpper(t);
    assert TrailingWs(u[a..]) == b;
    TrimBounds(s, a, b);
    TrimBounds(u, a, b);
    UpperSlice(s, a, |s| - b);
  }

  // ---------------------------------------------------------------- zfill and \D

  /** `s.zfill(width)` for a string without a sign: pad with '0' on the left
      up to `width`, never truncate. */
  function ZFill(s: string, width: nat): (r: string)
    ensures |r| == if |s| < width then width else |s|
    ensures r[|r| - |s|..] == s
    ensures forall i :: 0 <= i < |r| - |s| ==> r[i] == '0'
  {
    if |s| < width then seq(width - |s|, _ => '0') + s else s
  }

  lemma ZFillDigits(s: string, width: nat)
    requires AllDigits(s)
    ensures AllDigits(ZFill(s, width))
    ensures |s| >= width ==> ZFill(s, width) == s
  {
    var r := ZFill(s, width);
    forall i | 0 <= i < |r|
      ensures IsDigit(r[i])
    {
      if i >= |r| - |s| {
        assert r[i] == r[|r| - |s|..][i - (|r| - |s|)];
      }
    }
  }

  /** `re.sub(r'\D', '', s)`: the digits of `s`, in order. */
  function FilterDigits(s: string): (r: string)
    ensures |r| <= |s|
    ensures AllDigits(r)
    ensures r == [] <==> !HasDigit(s)
    ensures AllDigits(s) ==> r == s
  {
    if s == [] then []
    else
      var rest := FilterDigits(s[1..]);
      assert HasDigit(s) <==> IsDigit(s[0]) || HasDigit(s[1..]) by {
        if HasDigit(s[1..]) {
          var i :| 0 <= i < |s[1..]| && IsDigit(s[1..][i]);
          assert IsDigit(s[i + 1]);
        }
        if HasDigit(s) && !IsDigit(s[0]) {
          var i :| 0 <= i < |s| && IsDigit(s[i]);
          assert IsDigit(s[1..][i - 1]);
        }
      }
      if IsDigit(s[0]) then [s[0]] + rest else rest
  }

  /** Filtering works piecewise, so it keeps the digits in their original order. */
  lemma {:induction false} FilterDigitsAppend(a: string, b: string)
    ensures FilterDigits(a + b) == FilterDigits(a) + FilterDigits(b)
  {
    if a != [] {
      assert (a + b)[1..] == a[1..] + b;
      FilterDigitsAppend(a[1..], b);
    } else {
      assert a + b == b;
    }
  }
}
