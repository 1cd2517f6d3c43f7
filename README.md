# Korean stock code helpers, modelled in Dafny

The data provider accepts Korean tickers in free form. Users may write
"kr005930", "kr:035720", "  kr 005930 ", "035720.kq" or just "5930". Two
helpers deal with this input:

- `convert_kr_code` rewrites any of these forms into the ticker that market
  data lookups expect. The ticker is a six-digit id followed by ".KS" for
  KOSPI or ".KQ" for KOSDAQ. Input without a suffix gets ".KS".
- `is_kr_code` decides whether an input should go through that conversion
  at all.

The model is written on values, in two modules.

- `Text` (`text.dfy`) holds ASCII models of the Python string operations the
  helpers use: `strip()`, `lower()`/`upper()`, `startswith` on the
  lower-cased text, `zfill()`, the class `\d`, and `re.sub(r'\D', '', s)`.
- `KrCode` (`kr_code.dfy`) holds the three matching regular expressions
  as predicates, the prefix handling, the branch cascade of the converter
  (`ConvertCode`, applied to the de-prefixed text by `ConvertKrCode`), and
  the classifier (`IsKrCode`).

The main results are these.

- Every input with a digit after the prefix handling becomes a ticker.
  Every input without one is echoed upper-cased.
- The converter is idempotent, and every ticker it produces is a fixed
  point.
- The documented prefixed and suffixed examples ("kr005930", "kr:035720",
  "035720.KQ") hold for every choice of letter case and surrounding
  whitespace. The fallback examples ("abc", "") and a bare "kr" are stated
  on the literal inputs, and every input without a digit is echoed
  upper-cased.
- The classifier is characterised exactly: either a "kr" prefix in any
  case, or six digits followed by ".KS"/".KQ" in any case.
- Whatever the classifier accepts without a prefix converts to itself,
  stripped and upper-cased.

## Model

| member | source | states |
|---|---|---|
| Text.IsDigit | data_provider/kr_code_utils.py:22 | the regex class `\d`, on ASCII: '0' to '9' |
| Text.IsWs | data_provider/kr_code_utils.py:13 | the characters `strip()` removes, on ASCII: TAB to CR, 0x1C-0x1F and SPACE |
| Text.ToLower | data_provider/kr_code_utils.py:15 | `lower()`, on ASCII: every 'A'-'Z' mapped to 'a'-'z', all else kept, length kept |
| Text.ToUpper | data_provider/kr_code_utils.py:36 | `upper()`, on ASCII: every 'a'-'z' mapped to 'A'-'Z', all else kept, length kept |
| Text.StartsWithCI | data_provider/kr_code_utils.py:15-17 | `s.lower().startswith(p)`, one character at a time; it holds only when `p` is no longer than `s` |
| Text.Trim | data_provider/kr_code_utils.py:13 | `strip()` leaves a text whose ends are not whitespace, no longer than the input, and empty exactly when the input is all whitespace |
| Text.TrimPadded | data_provider/kr_code_utils.py:13 | stripping whitespace from both sides of a text with non-whitespace ends gives back exactly that text |
| Text.TrimUpper | data_provider/kr_code_utils.py:13 | stripping commutes with upper-casing |
| Text.StartsWithCIMeaning | data_provider/kr_code_utils.py:15-17 | the character-wise case-insensitive prefix test is exactly `s.lower()[:len(p)] == p` |
| Text.UpperKeepsClasses | data_provider/kr_code_utils.py:36 | upper-casing keeps the presence of digits and the case-insensitive prefix tests unchanged, and leaves digit strings alone |
| Text.ZFill | data_provider/kr_code_utils.py:24 | `zfill(width)` pads with '0' on the left up to `width`, keeps the text as its suffix, and never truncates |
| Text.ZFillDigits | data_provider/kr_code_utils.py:37 | zero-filling a digit string gives a digit string, and a string already `width` long or longer is unchanged |
| Text.FilterDigits | data_provider/kr_code_utils.py:33 | `re.sub(r'\D', '', s)` gives only digits, is empty exactly when `s` has no digit, and is the identity on digit strings |
| Text.FilterDigitsAppend | data_provider/kr_code_utils.py:33 | digit filtering distributes over concatenation, so digits keep their order |
| KrCode.ParseSuffix | data_provider/kr_code_utils.py:22 | the case-insensitive alternation `KS\|KQ` accepts exactly the texts that upper-case to "KS" or "KQ", and names the exchange they denote |
| KrCode.MatchSuffixed | data_provider/kr_code_utils.py:22 | a match splits the text into a group of 1 to 6 digits, a dot and a valid suffix |
| KrCode.MatchSuffixedComplete | data_provider/kr_code_utils.py:22 | every 1-6 digit group, dot and suffix in any case matches, with exactly those groups |
| KrCode.StrictCodeIsSuffixed | data_provider/kr_code_utils.py:22 | every text the classifier's pattern accepts is matched by the converter's pattern, with the six digits and the suffix as groups |
| KrCode.KrColonImpliesKr | data_provider/kr_code_utils.py:48 | a text starting with "kr:" starts with "kr", so the classifier's second test adds nothing |
| KrCode.NoKrPrefix | data_provider/kr_code_utils.py:15-17 | a text whose first character is not 'k' or 'K' has neither prefix |
| KrCode.StripOnePrefix | data_provider/kr_code_utils.py:15-18 | "kr:" in any case is removed when present; otherwise "kr" is removed; only one prefix is ever removed |
| KrCode.IsSixDigits | data_provider/kr_code_utils.py:29 | the pattern `^\d{6}$` on a whole text: exactly six digits |
| KrCode.IsStrictCode | data_provider/kr_code_utils.py:50 | the pattern `^\d{6}\.(ks\|kq)$`, case-insensitive, on a whole text |
| KrCode.StripKrPrefix | data_provider/kr_code_utils.py:15-18 | the prefix removal keeps a suffix of its input and removes at most three characters |
| KrCode.Normalize | data_provider/kr_code_utils.py:13-19 | strip, prefix removal, strip: the result is no longer than the input, has no whitespace at either end, and holds a digit only if the input does |
| KrCode.DigitLedIsNormal | data_provider/kr_code_utils.py:13-19 | a text that starts with a digit and does not end in whitespace passes the prefix handling unchanged, with any whitespace around it removed |
| KrCode.NormalizeStripsOnePrefix | data_provider/kr_code_utils.py:13-19 | strip, remove one "kr:"/"kr" prefix in any case, strip again: any whitespace around and after the prefix disappears and the code itself is kept; a prefix with nothing after it leaves the empty text |
| KrCode.NormalizeNoPrefix | data_provider/kr_code_utils.py:13-19 | a code without a "kr" prefix is only stripped |
| KrCode.NormalizeUnprefixed | data_provider/kr_code_utils.py:13-19 | when the stripped input has no "kr" prefix, the text the branches see is the stripped input |
| KrCode.StripKrPrefixUpper | data_provider/kr_code_utils.py:15-18 | the prefix removal ignores case, so it commutes with upper-casing |
| KrCode.NormalizeUpper | data_provider/kr_code_utils.py:13-19 | the whole prefix handling commutes with upper-casing |
| KrCode.ConvertKrCode | data_provider/kr_code_utils.py:3-38 | `convert_kr_code`: a ticker when a digit survives the prefix handling, otherwise the input upper-cased; input with no digit at all is always echoed upper-cased |
| KrCode.ConvertCode | data_provider/kr_code_utils.py:21-38 | when the de-prefixed code holds a digit the result is a ticker (six or more digits then ".KS", or six digits then ".KQ"); otherwise it is the original input upper-cased |
| KrCode.ConvertSuffixed | data_provider/kr_code_utils.py:22-26 | 1-6 digits with a suffix in any case are zero-filled to six digits and the suffix is upper-cased |
| KrCode.ConvertBareSix | data_provider/kr_code_utils.py:28-30 | exactly six bare digits get the default ".KS" |
| KrCode.ConvertDigitsFallback | data_provider/kr_code_utils.py:32-38 | any other code with digits becomes its digits, in order, zero-filled to at least six, then ".KS"; a run longer than six is kept whole |
| KrCode.ConvertSuffixedCode | data_provider/kr_code_utils.py:22-26 | "035720.KQ"-shaped input with any surrounding whitespace: 1-6 digits, a dot and a suffix in any case, converted to six digits and the upper-cased suffix |
| KrCode.ConvertSixDigitsCode | data_provider/kr_code_utils.py:28-30 | six bare digits with any surrounding whitespace convert to those digits followed by ".KS" |
| KrCode.PaddedTicker | data_provider/kr_code_utils.py:37-38 | a zero-filled digit run followed by ".KS" has at least six digits, keeps the run as its suffix, and has only zeros before it |
| KrCode.ConvertPrefixedSixDigits | data_provider/kr_code_utils.py:9-10 | "kr005930" / "kr:035720" in any case and with any whitespace around the prefix and the digits convert to the digits followed by ".KS" |
| KrCode.TickerIsNormal | data_provider/kr_code_utils.py:13-19 | a ticker is unchanged by the prefix handling |
| KrCode.TickerDigits | data_provider/kr_code_utils.py:33 | the digits of a ticker ending in ".KS" are its id |
| KrCode.LongTickerFixed | data_provider/kr_code_utils.py:32-38 | a ticker with more than six digits falls to the digit-collecting branch and is given back unchanged |
| KrCode.ConvertFixesTicker | data_provider/kr_code_utils.py:21-38 | every ticker the converter can produce, in particular every canonical six-digit ".KS"/".KQ" ticker, converts to itself |
| KrCode.ConvertIdempotent | data_provider/kr_code_utils.py:3-38 | converting the converter's output again changes nothing |
| KrCode.ConvertPrefixOnly | data_provider/kr_code_utils.py:13-36 | "kr" or "kr:" in any case with nothing after it (such as " KR: ") leaves no digit, so the whole input is echoed upper-cased |
| KrCode.ConvertExampleLetters | data_provider/kr_code_utils.py:34-36 | "abc" converts to "ABC" |
| KrCode.ConvertExampleBarePrefix | data_provider/kr_code_utils.py:34-36 | "kr" converts to "KR", though the classifier accepts it |
| KrCode.ConvertExampleEmpty | data_provider/kr_code_utils.py:34-36 | empty input falls through to the fallback and comes back empty |
| KrCode.IsKrCode | data_provider/kr_code_utils.py:40-52 | an input is accepted exactly when, once stripped, it starts with "kr" in any case or is six digits, a dot and "ks"/"kq" in any case |
| KrCode.IsKrCodeBlank | data_provider/kr_code_utils.py:45-47 | empty and whitespace-only input is rejected |
| KrCode.IsKrCodePrefixed | data_provider/kr_code_utils.py:48-49 | a "kr" prefix in any case is accepted whatever follows it, with any surrounding whitespace |
| KrCode.IsKrCodeStrict | data_provider/kr_code_utils.py:50-51 | six digits, a dot and a suffix in any case are accepted, with any surrounding whitespace |
| KrCode.StrictCodeConverts | data_provider/kr_code_utils.py:22-26 | a code of the classifier's strict shape converts to itself upper-cased |
| KrCode.AcceptedCodeConverts | data_provider/kr_code_utils.py:40-52 | every input the classifier accepts without a "kr" prefix converts to itself, stripped and upper-cased |
| KrCode.IsKrCodeExamplePrefixed | data_provider/kr_code_utils.py:43 | "kr005930" is accepted |
| KrCode.IsKrCodeExampleLowerSuffix | data_provider/kr_code_utils.py:50 | "005930.ks" is accepted (the suffix test ignores case) |
| KrCode.IsKrCodeExampleBarePrefix | data_provider/kr_code_utils.py:48-49 | "kr" alone is accepted |
| KrCode.IsKrCodeExampleForeign | data_provider/kr_code_utils.py:52 | "AAPL" is rejected |
| KrCode.IsKrCodeExampleEmpty | data_provider/kr_code_utils.py:46-47 | "" is rejected |
| KrCode.IsKrCodeExampleShortCode | data_provider/kr_code_utils.py:50-52 | "5930.KS" is rejected: the classifier wants exactly six digits, although the converter would accept it |

## Left out

- Unicode: `\d`, `str.isspace()`, `lower()` and `upper()` are modelled on ASCII only. Python's Unicode digits, whitespace and case mappings are not modelled. These include case-insensitive regex matches through non-ASCII letters, and `lower()`/`upper()` changing a string's length.
- The regular-expression engine is not modelled. Each of the three matching patterns (lines 22, 29 and 50) is a hand-written predicate that tests the whole stripped text. The substitution `re.sub(r'\D', '', code)` on line 33 is the recursive `Text.FilterDigits`. Python's `$` also matches before a final newline, but that case cannot arise because the text is already stripped.
- Text.ZFill: does not model `zfill`'s handling of a leading '+' or '-', because only digit strings reach it here.
- The converter's documented ticker examples are stated for all inputs of their shape (`ConvertPrefixedSixDigits`, `ConvertSuffixedCode`), not as evaluations on literals.
- The market-data lookup that consumes the converted ticker is not part of this model.
