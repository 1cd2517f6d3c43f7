/**
  Normalisation and recognition of Korean stock tickers.

  `ConvertKrCode` turns free-form user input ("kr005930", "kr:035720",
  "035720.kq", "5930") into the exchange-suffixed form used for market-data
  lookups ("005930.KS", "035720.KQ"); `IsKrCode` decides whether an input
  should be routed through that conversion at all.
 */
module KrCode {
  import opened Text

  datatype Option<T> = None | Some(value: T)

  /** The two exchanges a ticker can name: KOSPI (".KS") and KOSDAQ (".KQ"). */
  datatype Exchange = KOSPI | KOSDAQ

  function Suffix(e: Exchange): string {
    match e
    case KOSPI => "KS"
    case KOSDAQ => "KQ"
  }

  /** The alternation `KS|KQ` under case-insensitive matching. */
  function ParseSuffix(x: string): (r: Option<Exchange>)
    ensures r.Some? <==> ToUpper(x) in {"KS", "KQ"}
    ensures r.Some? ==> ToUpper(x) == Suffix(r.value)
  {
    if ToUpper(x) == "KS" then Some(KOSPI)
    else if ToUpper(x) == "KQ" then Some(KOSDAQ)
    else None
  }

  // ---------------------------------------------------------------- the three patterns

  /** The pattern `^(\d{1,6})\.(KS|KQ)$`, case-insensitive, applied to a
      whole (already stripped) text: the digit group and the suffix group. */
  function MatchSuffixed(s: string): (r: Option<(string, string)>)
    ensures r.Some? ==>
      && s == r.value.0 + "." + r.value.1
      && 1 <= |r.value.0| <= 6
      && AllDigits(r.value.0)
      && ParseSuffix(r.value.1).Some?
  {
    if 4 <= |s| <= 9 && AllDigits(s[..|s| - 3]) && s[|s| - 3] == '.' && ParseSuffix(s[|s| - 2..]).Some? then
      assert s == s[..|s| - 3] + "." + s[|s| - 2..];
      Some((s[..|s| - 3], s[|s| - 2..]))
    else
      None
  }

  /** The pattern `^\d{6}$`. */
  predicate IsSixDigits(s: string) {
    |s| == 6 && AllDigits(s)
  }

  /** The pattern `^\d{6}\.(ks|kq)$`, case-insensitive, used by the classifier. */
  predicate IsStrictCode(s: string) {
    |s| == 9 && IsSixDigits(s[..6]) && s[6] == '.' && ParseSuffix(s[7..]).Some?
  }

  // ---------------------------------------------------------------- ConvertKrCode

  /** Removes one leading "kr:" or, failing that, one leading "kr", ignoring case. */
  function StripKrPrefix(s: string): (r: string)
    ensures |s| - 3 <= |r| <= |s|
    ensures r == s[|s| - |r|..]
  {
    if StartsWithCI(s, "kr:") then s[3..]
    else if StartsWithCI(s, "kr") then s[2..]
    else s
  }

  /** The text the later branches of `ConvertKrCode` look at: stripped,
      de-prefixed, stripped again. */
  function Normalize(u: string): (r: string)
    ensures |r| <= |u|
    ensures Stripped(r)
    ensures HasDigit(r) ==> HasDigit(u)
  {
    var t := Trim(u);
    var c := StripKrPrefix(t);
    assert HasDigit(c) ==> HasDigit(t) by {
      if HasDigit(c) {
        var i :| 0 <= i < |c| && IsDigit(c[i]);
        assert c[i] == t[|t| - |c| + i];
      }
    }
    Trim(c)
  }

  /** The shapes `ConvertKrCode` produces when it finds digits: an id of at
      least six digits, then ".KS", or exactly six digits, then ".KQ". */
  predicate IsTickerForm(r: string) {
    && |r| >= 9
    && AllDigits(r[..|r| - 3])
    && (r[|r| - 3..] == ".KS" || (|r| == 9 && r[|r| - 3..] == ".KQ"))
  }

  /** The branches of `convert_kr_code` after the prefix handling, applied
      to the de-prefixed text `code`; the first that matches decides.
      Whenever `code` holds a digit the result is a ticker; otherwise it is
      the untouched `original` input, upper-cased. */
  function ConvertCode(code: string, original: string): (r: string)
    ensures HasDigit(code) ==> IsTickerForm(r)
    ensures !HasDigit(code) ==> r == ToUpper(original)
  {
    match MatchSuffixed(code)
    case Some((num, suf)) =>
      MatchedHasDigit(code);
      SuffixedIsTicker(num, suf);
      ZFill(num, 6) + "." + ToUpper(suf)
    case None =>
      if IsSixDigits(code) then
        assert IsDigit(code[0]);
        BareIsTicker(code);
        code + ".KS"
      else
        var digits := FilterDigits(code);
        if digits == [] then ToUpper(original)
        else
          ZFillDigits(digits, 6);
          BareIsTicker(ZFill(digits, 6));
          ZFill(digits, 6) + ".KS"
  }

  /** `convert_kr_code`: a ticker when a digit survives the prefix
      handling, otherwise the input upper-cased; in particular input with no
      digit at all is always echoed upper-cased. */
  function ConvertKrCode(u: string): (r: string)
    ensures HasDigit(Normalize(u)) ==> IsTickerForm(r)
    ensures !HasDigit(Normalize(u)) ==> r == ToUpper(u)
    ensures !HasDigit(u) ==> r == ToUpper(u)
  {
    ConvertCode(Normalize(u), u)
  }

  /** Text the suffixed pattern matches holds a digit. */
  lemma MatchedHasDigit(s: string)
    requires MatchSuffixed(s).Some?
    ensures HasDigit(s)
  {
    assert IsDigit(s[..|s| - 3][0]);
  }

  /** The first branch produces a six-digit ticker. */
  lemma SuffixedIsTicker(num: string, suf: string)
    requires 1 <= |num| <= 6 && AllDigits(num) && ParseSuffix(suf).Some?
    ensures IsTickerForm(ZFill(num, 6) + "." + ToUpper(suf))
  {
    ZFillDigits(num, 6);
    var id := ZFill(num, 6);
    var up := ToUpper(suf);
    assert up == "KS" || up == "KQ";
    var r := id + "." + up;
    assert |r| == 9;
    assert r[..6] == id;
    assert r[6..] == "." + up;
  }

  /** Six or more digits followed by ".KS" are a ticker. */
  lemma BareIsTicker(id: string)
    requires |id| >= 6 && AllDigits(id)
    ensures IsTickerForm(id + ".KS")
  {
    var r := id + ".KS";
    assert r[..|r| - 3] == id;
    assert r[|r| - 3..] == ".KS";
  }

  // ---------------------------------------------------------------- properties of the patterns

  /** Any 1-6 digit group, a dot and an exchange suffix is matched, with
      exactly those groups: together with the contract of `MatchSuffixed`
      this says the function is the pattern. */
  lemma MatchSuffixedComplete(d: string, x: string)
    requires 1 <= |d| <= 6 && AllDigits(d) && ParseSuffix(x).Some?
    ensures MatchSuffixed(d + "." + x) == Some((d, x))
  {
    var s := d + "." + x;
    assert |x| == |ToUpper(x)| == 2;
    assert s[..|s| - 3] == d;
    assert s[|s| - 3] == '.';
    assert s[|s| - 2..] == x;
  }

  /** The classifier's pattern is the converter's pattern restricted to six digits. */
  lemma StrictCodeIsSuffixed(c: string)
    requires IsStrictCode(c)
    ensures MatchSuffixed(c) == Some((c[..6], c[7..]))
  {
    assert c == c[..6] + "." + c[7..];
    MatchSuffixedComplete(c[..6], c[7..]);
  }

  /** Every text that starts with "kr:" starts with "kr". */
  lemma KrColonImpliesKr(s: string)
    ensures StartsWithCI(s, "kr:") ==> StartsWithCI(s, "kr")
  {
    StartsWithCIMeaning(s, "kr:");
    StartsWithCIMeaning(s, "kr");
    if StartsWithCI(s, "kr:") {
      assert ToLower(s[..2]) == ToLower(s[..3])[..2];
    }
  }

  // ---------------------------------------------------------------- prefix handling

  /** A text that does not begin with a 'k' in either case has no prefix. */
  lemma NoKrPrefix(s: string)
    requires s != [] && s[0] != 'k' && s[0] != 'K'
    ensures !StartsWithCI(s, "kr") && !StartsWithCI(s, "kr:")
  {
    assert LowerChar(s[0]) != 'k';
  }

  /** Exactly one prefix is removed: "kr:" when it is there, else "kr". */
  lemma StripOnePrefix(p: string, rest: string)
    requires ToLower(p) == "kr:" || ToLower(p) == "kr"
    requires ToLower(p) == "kr" ==> rest == [] || rest[0] != ':'
    ensures StripKrPrefix(p + rest) == rest
  {
    var m := p + rest;
    StartsWithCIMeaning(m, "kr:");
    StartsWithCIMeaning(m, "kr");
    if ToLower(p) == "kr:" {
      assert m[..3] == p;
      assert m[3..] == rest;
    } else {
      assert m[..2] == p;
      assert m[2..] == rest;
      if |m| >= 3 {
        assert m[..3] == p + [rest[0]];
        assert ToLower(m[..3])[2] == LowerChar(rest[0]);
      }
    }
  }

  /** Surrounding whitespace is stripped, then exactly one "kr:" or "kr"
      (any case) is removed, then the whitespace after it is stripped. */
  lemma NormalizeStripsOnePrefix(w1: string, p: string, w2: string, d: string, w3: string)
    requires AllWs(w1) && AllWs(w2) && AllWs(w3)
    requires ToLower(p) == "kr:" || ToLower(p) == "kr"
    requires Stripped(d)
    requires ToLower(p) == "kr" && d != [] ==> w2 != [] || d[0] != ':'
    ensures Normalize(w1 + p + w2 + d + w3) == d
  {
    assert ToLower(p)[0] == LowerChar(p[0]);
    if d == [] {
      assert w1 + p + w2 + d + w3 == w1 + p + (w2 + w3);
      assert ToLower(p)[|p| - 1] == LowerChar(p[|p| - 1]);
      TrimPadded(w1, p, w2 + w3);
      StripOnePrefix(p, []);
      assert p + [] == p;
      return;
    }
    var rest := w2 + d;
    var m := p + rest;
    assert w1 + p + w2 + d + w3 == w1 + m + w3;
    assert m[0] == p[0] && m[|m| - 1] == d[|d| - 1];
    TrimPadded(w1, m, w3);
    assert rest[0] == if w2 != [] then w2[0] else d[0];
    StripOnePrefix(p, rest);
    TrimPadded(w2, d, []);
    assert w2 + d + [] == rest;
  }

  /** Text that does not start with "kr" is only stripped. */
  lemma NormalizeNoPrefix(w1: string, d: string, w3: string)
    requires AllWs(w1) && AllWs(w3)
    requires Stripped(d) && !StartsWithCI(d, "kr")
    ensures Normalize(w1 + d + w3) == d
  {
    TrimPadded(w1, d, w3);
    KrColonImpliesKr(d);
    TrimPadded([], d, []);
    assert [] + d + [] == d;
  }

  // ---------------------------------------------------------------- the branches of ConvertKrCode

  /** First branch: 1-6 digits with a suffix in any case are padded to six
      digits and the suffix is upper-cased. */
  lemma ConvertSuffixed(code: string, original: string, d: string, x: string)
    requires code == d + "." + x
    requires 1 <= |d| <= 6 && AllDigits(d) && ParseSuffix(x).Some?
    ensures ConvertCode(code, original) == ZFill(d, 6) + "." + Suffix(ParseSuffix(x).value)
  {
    MatchSuffixedComplete(d, x);
  }

  /** Second branch: exactly six bare digits get the default KOSPI suffix. */
  lemma ConvertBareSix(code: string, original: string)
    requires IsSixDigits(code)
    ensures ConvertCode(code, original) == code + ".KS"
  {
    assert IsDigit(code[|code| - 3]);
  }

  /** Third branch: otherwise the digits are collected in order and padded
      on the left to at least six; a longer run is kept whole. */
  lemma ConvertDigitsFallback(code: string, original: string)
    requires MatchSuffixed(code).None? && !IsSixDigits(code) && HasDigit(code)
    ensures var r, digits := ConvertCode(code, original), FilterDigits(code);
      && |r| >= 9
      && r[|r| - 3..] == ".KS"
      && |r| - 3 == (if |digits| < 6 then 6 else |digits|)
      && AllDigits(r[..|r| - 3])
      && r[|r| - 3 - |digits|..|r| - 3] == digits
      && forall i :: 0 <= i < |r| - 3 - |digits| ==> r[i] == '0'
  {
    var digits := FilterDigits(code);
    assert ConvertCode(code, original) == ZFill(digits, 6) + ".KS";
    PaddedTicker(digits);
  }

  /** The shape of a zero-filled id followed by ".KS". */
  lemma PaddedTicker(digits: string)
    requires AllDigits(digits)
    ensures var r := ZFill(digits, 6) + ".KS";
      && |r| >= 9
      && r[|r| - 3..] == ".KS"
      && |r| - 3 == (if |digits| < 6 then 6 else |digits|)
      && AllDigits(r[..|r| - 3])
      && r[|r| - 3 - |digits|..|r| - 3] == digits
      && forall i :: 0 <= i < |r| - 3 - |digits| ==> r[i] == '0'
  {
    var id := ZFill(digits, 6);
    ZFillDigits(digits, 6);
    var r := id + ".KS";
    assert r[..|r| - 3] == id;
    assert r[|r| - 3..] == ".KS";
    assert r[|r| - 3 - |digits|..|r| - 3] == id[|id| - |digits|..];
    assert forall i :: 0 <= i < |id| ==> r[i] == id[i];
  }

  /** A text that starts with a digit and ends in a non-whitespace
      character has no prefix, so the prefix handling only strips it. */
  lemma DigitLedIsNormal(w1: string, s: string, w3: string)
    requires AllWs(w1) && AllWs(w3)
    requires s != [] && IsDigit(s[0]) && !IsWs(s[|s| - 1])
    ensures Normalize(w1 + s + w3) == s
    ensures Normalize(s) == s
  {
    NoKrPrefix(s);
    NormalizeNoPrefix(w1, s, w3);
    NormalizeNoPrefix([], s, []);
    ConcatEmpty(s, []);
  }

  /** "035720.KQ"-shaped input, whatever whitespace surrounds it: 1-6 digits,
      a dot and a suffix in any case become six digits and the upper-cased
      suffix. */
  lemma ConvertSuffixedCode(w1: string, d: string, x: string, w3: string)
    requires AllWs(w1) && AllWs(w3)
    requires 1 <= |d| <= 6 && AllDigits(d) && ParseSuffix(x).Some?
    ensures ConvertKrCode(w1 + d + "." + x + w3) == ZFill(d, 6) + "." + ToUpper(x)
    ensures |d| == 6 ==> ConvertKrCode(w1 + d + "." + x + w3) == d + "." + ToUpper(x)
  {
    var s := d + "." + x;
    assert |x| == |ToUpper(x)| == 2;
    assert ToUpper(x)[1] == UpperChar(x[1]);
    assert s[0] == d[0] && s[|s| - 1] == x[1];
    assert w1 + d + "." + x + w3 == w1 + s + w3;
    DigitLedIsNormal(w1, s, w3);
    ConvertSuffixed(s, w1 + s + w3, d, x);
    ZFillDigits(d, 6);
  }

  /** Six bare digits, whatever whitespace surrounds them, become a KOSPI
      ticker. */
  lemma ConvertSixDigitsCode(w1: string, d: string, w3: string)
    requires AllWs(w1) && AllWs(w3)
    requires IsSixDigits(d)
    ensures ConvertKrCode(w1 + d + w3) == d + ".KS"
  {
    assert IsDigit(d[0]) && IsDigit(d[5]);
    DigitLedIsNormal(w1, d, w3);
    ConvertBareSix(d, w1 + d + w3);
  }

  /** A ticker has no whitespace at its ends and no "kr" prefix. */
  lemma TickerIsNormal(t: string)
    requires IsTickerForm(t)
    ensures Normalize(t) == t
  {
    assert IsDigit(t[..|t| - 3][0]);
    var tail := t[|t| - 3..];
    assert t[|t| - 1] == tail[2];
    DigitLedIsNormal([], t, []);
  }

  /** A ticker's digits are its id. */
  lemma TickerDigits(id: string)
    requires AllDigits(id)
    ensures FilterDigits(id + ".KS") == id
  {
    FilterDigitsAppend(id, ".KS");
    assert !HasDigit(".KS");
  }

  /** A nine-character ticker is six digits, a dot and an upper-case suffix. */
  lemma CanonicalTickerParts(t: string)
    requires IsTickerForm(t) && |t| == 9
    ensures t == t[..6] + "." + t[7..]
    ensures IsSixDigits(t[..6]) && ParseSuffix(t[7..]).Some? && ToUpper(t[7..]) == t[7..]
  {
    var sfx := t[7..];
    assert sfx == t[|t| - 3..][1..];
    assert sfx == "KS" || sfx == "KQ";
  }

  /** Every ticker `ConvertKrCode` can produce is left as it is; in
      particular every canonical `dddddd.KS` / `dddddd.KQ`. */
  lemma ConvertFixesTicker(t: string)
    requires IsTickerForm(t)
    ensures ConvertKrCode(t) == t
  {
    TickerIsNormal(t);
    if |t| == 9 {
      CanonicalTickerParts(t);
      ConvertSuffixed(t, t, t[..6], t[7..]);
      ZFillDigits(t[..6], 6);
    } else {
      LongTickerFixed(t);
    }
  }

  /** A ticker with more than six digits only meets the digit-collecting
      branch, which gives it back. */
  lemma LongTickerFixed(t: string)
    requires IsTickerForm(t) && |t| > 9
    ensures ConvertCode(t, t) == t
  {
    var id := t[..|t| - 3];
    assert t == id + ".KS";
    TickerDigits(id);
    ZFillDigits(id, 6);
  }

  /** Converting twice is converting once. */
  lemma ConvertIdempotent(u: string)
    ensures ConvertKrCode(ConvertKrCode(u)) == ConvertKrCode(u)
  {
    var code := Normalize(u);
    if HasDigit(code) {
      ConvertFixesTicker(ConvertKrCode(u));
    } else {
      NormalizeUpper(u);
      UpperKeepsClasses(code);
      UpperIdempotent(u);
    }
  }

  /** Upper-casing the input commutes with the prefix handling. */
  lemma NormalizeUpper(u: string)
    ensures Normalize(ToUpper(u)) == ToUpper(Normalize(u))
  {
    TrimUpper(u);
    StripKrPrefixUpper(Trim(u));
    TrimUpper(StripKrPrefix(Trim(u)));
  }

  /** The prefix test ignores case, so upper-casing before or after removing
      the prefix gives the same text. */
  lemma StripKrPrefixUpper(t: string)
    ensures StripKrPrefix(ToUpper(t)) == ToUpper(StripKrPrefix(t))
  {
    UpperKeepsClasses(t);
    StartsWithCIMeaning(t, "kr:");
    StartsWithCIMeaning(t, "kr");
    if StartsWithCI(t, "kr:") {
      UpperSlice(t, 3, |t|);
    } else if StartsWithCI(t, "kr") {
      UpperSlice(t, 2, |t|);
    }
  }

  /** The documented prefixed forms: "kr005930", "kr:035720", "  kr 005930 "
      all reach the six-digit branch. */
  lemma ConvertPrefixedSixDigits(w1: string, p: string, w2: string, d: string, w3: string)
    requires AllWs(w1) && AllWs(w2) && AllWs(w3)
    requires ToLower(p) == "kr:" || ToLower(p) == "kr"
    requires IsSixDigits(d)
    ensures ConvertKrCode(w1 + p + w2 + d + w3) == d + ".KS"
  {
    assert IsDigit(d[0]) && IsDigit(d[5]);
    NormalizeStripsOnePrefix(w1, p, w2, d, w3);
    ConvertBareSix(d, w1 + p + w2 + d + w3);
  }

  /** A prefix with nothing after it leaves no digit, so the whole input
      is echoed upper-cased, whitespace included. */
  lemma ConvertPrefixOnly(w1: string, p: string, w3: string)
    requires AllWs(w1) && AllWs(w3)
    requires ToLower(p) == "kr:" || ToLower(p) == "kr"
    ensures ConvertKrCode(w1 + p + w3) == ToUpper(w1 + p + w3)
  {
    NormalizeStripsOnePrefix(w1, p, [], [], w3);
    ConcatEmpty(w1 + p, w3);
  }

  /** Input without a digit is echoed upper-cased. (The input is a
      parameter so that the verifier does not evaluate the whole conversion
      on a literal.) */
  lemma ConvertExampleLetters(u: string)
    requires u == "abc"
    ensures ConvertKrCode(u) == "ABC"
  {
    assert !HasDigit(u);
    assert ToUpper(u) == "ABC";
  }

  /** A bare "kr" is accepted by the classifier but comes back as "KR". */
  lemma ConvertExampleBarePrefix(u: string)
    requires u == "kr"
    ensures ConvertKrCode(u) == "KR"
  {
    assert !HasDigit(u);
    assert ToUpper(u) == "KR";
  }

  /** Empty input has no digits and is echoed as it is. */
  lemma ConvertExampleEmpty()
    ensures ConvertKrCode("") == ""
  {
  }

  // ---------------------------------------------------------------- IsKrCode

  /** `is_kr_code`. The "kr:" test is subsumed by the "kr" test, and the
      empty test by both others. */
  function IsKrCode(u: string): (r: bool)
    ensures r <==> StartsWithCI(Trim(u), "kr") || IsStrictCode(Trim(u))
  {
    var c := Trim(u);
    KrColonImpliesKr(c);
    if c == [] then false
    else if StartsWithCI(c, "kr") || StartsWithCI(c, "kr:") then true
    else IsStrictCode(c)
  }

  /** Empty and whitespace-only input is rejected. */
  lemma IsKrCodeBlank(u: string)
    requires AllWs(u)
    ensures !IsKrCode(u)
  {
  }

  /** A "kr" prefix in any case is accepted, whatever follows it. */
  lemma IsKrCodePrefixed(w1: string, p: string, rest: string, w3: string)
    requires AllWs(w1) && AllWs(w3)
    requires rest == [] || !IsWs(rest[|rest| - 1])
    requires ToLower(p) == "kr"
    ensures IsKrCode(w1 + p + rest + w3)
  {
    var m := p + rest;
    assert w1 + p + rest + w3 == w1 + m + w3;
    assert ToLower(p)[0] == LowerChar(p[0]) && ToLower(p)[1] == LowerChar(p[1]);
    assert m[0] == p[0];
    assert rest == [] ==> m[|m| - 1] == p[1];
    assert rest != [] ==> m[|m| - 1] == rest[|rest| - 1];
    TrimPadded(w1, m, w3);
    assert m[..2] == p;
    StartsWithCIMeaning(m, "kr");
  }

  /** Six digits, a dot and a suffix in any case are accepted, with or
      without surrounding whitespace. */
  lemma IsKrCodeStrict(w1: string, d: string, x: string, w3: string)
    requires AllWs(w1) && AllWs(w3)
    requires IsSixDigits(d) && ParseSuffix(x).Some?
    ensures IsKrCode(w1 + d + "." + x + w3)
  {
    var c := d + "." + x;
    assert w1 + d + "." + x + w3 == w1 + c + w3;
    assert |x| == |ToUpper(x)| == 2;
    assert c[0] == d[0] && c[|c| - 1] == x[1];
    assert ToUpper(x)[1] == UpperChar(x[1]);
    TrimPadded(w1, c, w3);
    assert c[..6] == d && c[7..] == x;
  }

  /** Text without a "kr" prefix is only stripped. */
  lemma NormalizeUnprefixed(u: string)
    requires !StartsWithCI(Trim(u), "kr")
    ensures Normalize(u) == Trim(u)
  {
    var c := Trim(u);
    KrColonImpliesKr(c);
    TrimPadded([], c, []);
    assert [] + c + [] == c;
  }

  /** A code of the classifier's strict shape converts to itself upper-cased. */
  lemma StrictCodeConverts(c: string, original: string)
    requires IsStrictCode(c)
    ensures ConvertCode(c, original) == ToUpper(c)
  {
    var d, x := c[..6], c[7..];
    assert c == d + "." + x;
    ConvertSuffixed(c, original, d, x);
    ZFillDigits(d, 6);
    UpperDottedCode(d, x);
  }

  /** Upper-casing a digit group, a dot and a suffix touches only the suffix. */
  lemma UpperDottedCode(d: string, x: string)
    requires AllDigits(d)
    ensures ToUpper(d + "." + x) == d + "." + ToUpper(x)
  {
    UpperKeepsClasses(d);
    UpperAppend(d, ".");
    UpperAppend(d + ".", x);
    assert ToUpper(".") == ".";
  }

  /** Whatever the classifier accepts without a prefix, the converter maps
      to itself stripped and upper-cased. */
  lemma AcceptedCodeConverts(u: string)
    requires IsKrCode(u) && !StartsWithCI(Trim(u), "kr")
    ensures ConvertKrCode(u) == ToUpper(Trim(u))
  {
    NormalizeUnprefixed(u);
    StrictCodeConverts(Trim(u), u);
  }

  /** The examples the classifier documents. */
  lemma IsKrCodeExamplePrefixed()
    ensures IsKrCode("kr005930")
  {
    IsKrCodePrefixed([], "kr", "005930", []);
    assert [] + "kr" + "005930" + [] == "kr005930";
  }

  lemma IsKrCodeExampleLowerSuffix()
    ensures IsKrCode("005930.ks")
  {
    IsKrCodeStrict([], "005930", "ks", []);
    assert [] + "005930" + "." + "ks" + [] == "005930.ks";
  }

  lemma IsKrCodeExampleBarePrefix()
    ensures IsKrCode("kr")
  {
    IsKrCodePrefixed([], "kr", [], []);
    ConcatEmpty("kr", []);
  }

  lemma IsKrCodeExampleForeign()
    ensures !IsKrCode("AAPL")
  {
    var c := "AAPL";
    TrimPadded([], c, []);
    assert [] + c + [] == c;
    NoKrPrefix(c);
    assert !IsStrictCode(c);
  }

  lemma IsKrCodeExampleEmpty()
    ensures !IsKrCode("")
  {
  }

  lemma IsKrCodeExampleShortCode()
    ensures !IsKrCode("5930.KS")
  {
    var c := "5930.KS";
    TrimPadded([], c, []);
    assert [] + c + [] == c;
    NoKrPrefix(c);
    assert !IsStrictCode(c);
  }
}
