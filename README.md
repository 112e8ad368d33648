# BotScout core in Dafny

BotScout looks for third-party chat widgets on a web page. This project models
the two pieces of its logic that are not browser or network plumbing:

- **The computed-style scanner** (`find_elements_by_computed_style`). A script
  run in the page walks the elements matched by `div, iframe, button, a` in
  document order. It keeps an element when all five tests hold:
  - its computed `position` is `fixed` or `sticky`;
  - `parseInt(z-index) || 0` is at least 1000;
  - `parseInt(right) || 0 > 0` and `parseInt(bottom) || 0 > 0`, both strict;
  - `display` is not `none` and `visibility` is not `hidden`;
  - its bounding box has positive width and height.

  The Python wrapper turns a raised exception, a null result or an empty
  list into `[]`.
- **URL preparation** (`_prepare_url`). It prefixes `https://` unless the URL
  starts with `http://` or `https://`, then appends `/` unless the URL already
  ends with one.

Files:

- `seqs.dfy` (module `Seqs`): an order-preserving filter `Keep`. Its lemmas
  cover one loop step, multiplicity of each element, subsequence order and
  distinctness.
- `js_parse_int.dfy` (module `JsParseInt`): `parseInt(s, 10) || 0` over
  strings, following section 19.2.5 of ECMA-262. It skips leading white
  space, reads an optional sign, then reads the longest run of decimal
  digits. NaN is modelled as `None`. A round-trip lemma links it to decimal
  formatting.
- `detector_utils.dfy` (module `DetectorUtils`): the element record, the
  five-part style signature and the scanning loop (a method proved against
  the filter). It also holds the exception/empty wrapper and the lemmas for
  soundness, completeness, order and distinctness. `ReadStyle` turns the
  raw computed-style strings into the values the tests compare, such as
  `auto` or `0px`. The scanner's record holds those values.
- `launcher_utils.dfy` (module `LauncherUtils`): `_prepare_url` as two
  conditional steps. Its lemmas cover the output's exact shape, fixed points,
  idempotence and the case-sensitive scheme test.

The offset test is strict (`> 0`), as the code has it. An element with
`right: 0px` is excluded (`FlushOffsetExcluded`).

## Model

| member | source | states |
|---|---|---|
| `DetectorUtils.FindElementsByStyle` | botscout/_detector_utils.py:13-39 | The loop's result is exactly the matching candidates in document order. Every returned element has a candidate tag and the full signature. Every candidate with the full signature is returned. |
| `DetectorUtils.MatchingElementsSound` | botscout/_detector_utils.py:15-34 | Each returned element is in the document and has tag div, iframe, button or a. Its position is fixed or sticky and its z-index is at least 1000. Its right and bottom offsets are strictly positive. Its display is not none, its visibility is not hidden, and its width and height are positive. |
| `DetectorUtils.MatchingElementsComplete` | botscout/_detector_utils.py:17-36 | Every document element with a candidate tag that satisfies all five conjuncts is in the result. |
| `DetectorUtils.MatchingElementsCount` | botscout/_detector_utils.py:14-36 | A matching candidate occurs in the result exactly as often as in the document. Any other element does not occur at all. |
| `DetectorUtils.MatchingElementsOrder` | botscout/_detector_utils.py:14-17 | The result is a subsequence of the candidates and of the document, so original order is kept. Its length is at most the number of candidates, which is at most the number of elements. |
| `DetectorUtils.MatchingElementsDistinct` | botscout/_detector_utils.py:14-36 | If the document lists each node once, the result holds no duplicates. |
| `DetectorUtils.ReadStyle` | botscout/_detector_utils.py:18-26 | z-index, bottom and right are each the integer their raw text starts with (after white space and an optional sign, negative only after `-`). A text with no leading digit, such as `auto`, reads as 0. Position, display, visibility and the bounding box are kept as read. |
| `DetectorUtils.AutoZIndexExcluded` | botscout/_detector_utils.py:21-29 | A computed z-index of `auto` reads as 0, so the element is excluded. |
| `DetectorUtils.FlushOffsetExcluded` | botscout/_detector_utils.py:22-31 | An element whose computed right or bottom is `0px` is excluded, because the offset test is strict. |
| `DetectorUtils.SerializedStyleMatch` | botscout/_detector_utils.py:18-34 | Take a fixed, visible element whose computed z-index is `N`, right `Rpx` and bottom `Bpx`. It matches exactly when N >= 1000, R > 0 and B > 0. |
| `DetectorUtils.FindElementsByComputedStyle` | botscout/_detector_utils.py:43-53 | A non-empty result occurs only when the script returned that very list. A returned list is passed through. An exception, a null result or an empty list gives the empty list. |
| `DetectorUtils.FindElementsByComputedStyleOnDocument` | botscout/_detector_utils.py:40-53 | If the script raises, the caller gets []. If it completes, the caller gets exactly the scan's result. Either way, every element the caller gets matches. |
| `JsParseInt.ParseIntNaN` | botscout/_detector_utils.py:21-23 | `parseInt` gives NaN exactly when no digit follows the leading white space and optional sign. Otherwise it gives the integer spelled there. |
| `JsParseInt.ParseIntOrZero` | botscout/_detector_utils.py:21-23 | A text with no digit after white space and sign reads as 0. Otherwise the result's magnitude is the value of the leading digit run, and it is negative exactly when a `-` precedes a nonzero run. |
| `JsParseInt.ParseIntRoundTrip` | botscout/_detector_utils.py:21-23 | An integer written in decimal and followed by a non-digit unit such as `px` parses back to itself. |
| `JsParseInt.ParseIntSkipsWhiteSpace` | botscout/_detector_utils.py:21-23 | Leading white space does not change what `parseInt` reads. |
| `JsParseInt.NoDigitsReadsAsZero` | botscout/_detector_utils.py:21-23 | A value with no digit after white space and sign (such as `auto`) is NaN and reads as 0. |
| `JsParseInt.ZeroPixelsReadsAsZero` | botscout/_detector_utils.py:22-23 | `0px` reads as 0. |
| `JsParseInt.FractionTruncates` | botscout/_detector_utils.py:22-23 | A length such as `0.5px` reads as 0, so a sub-pixel offset fails the strict test. |
| `LauncherUtils.WithScheme` | botscout/_launcher_utils.py:6-7 | The result has a scheme. A URL that already has one is unchanged. Any other URL becomes `https://` followed by the unchanged input. |
| `LauncherUtils.WithTrailingSlash` | botscout/_launcher_utils.py:9-10 | The result ends with `/`, extends the input by at most one character, and equals the input if it already ended with `/`. |
| `LauncherUtils.PrepareUrl` | botscout/_launcher_utils.py:1-12 | The result starts with `http://` or `https://` and ends with `/`. |
| `LauncherUtils.PrepareUrlShape` | botscout/_launcher_utils.py:6-10 | The result is an optional `https://`, then the input unchanged, then an optional `/`. The length is the input's plus 0 or 8 plus 0 or 1. |
| `LauncherUtils.PrepareUrlKeepsScheme` | botscout/_launcher_utils.py:6-10 | If the input has a scheme, no prefix is added. The result is the input, or the input plus `/`. |
| `LauncherUtils.PrepareUrlFixedPoint` | botscout/_launcher_utils.py:6-12 | The URL is returned unchanged exactly when it already has a scheme and ends with `/`. |
| `LauncherUtils.PrepareUrlIdempotent` | botscout/_launcher_utils.py:6-12 | Preparing an already prepared URL gives the same URL. |
| `LauncherUtils.PrepareUrlUpperCaseScheme` | botscout/_launcher_utils.py:6 | The scheme test is case-sensitive: `HTTP://x` becomes `https://HTTP://x/`. |
| `LauncherUtils.PrepareUrlEmpty` | botscout/_launcher_utils.py:6-12 | The empty URL becomes `https://`. The prefix already ends with `/`, so no slash is appended. |

## Left out

- Browser internals are not modelled: `getComputedStyle`, `getBoundingClientRect` and the selector engine. The page is given as a sequence of element records in document order. `CandidateElements` keeps the records whose lower-case tag is one of the four selector tags.
- The script reads each element's style inside the loop. Here each record already holds the values `ReadStyle` produces from the raw strings. Reading is pure, so it makes no difference when it happens.
- `driver.execute_script` is not modelled. Its outcome is a parameter: a returned list, null, or a raised exception.
- Width and height are layout floats. They are `real` here, because only their sign is used.
- `JsParseInt.ParseInt`: `-0` is folded into `0`. The model also ignores the rounding of numbers with more than 15 significant digits. Neither affects `|| 0` or the comparisons with 0 and 1000.
- The `print` diagnostics in the wrapper are left out because they do not affect the result.
- `check_ip` and `launch_page` in botscout/launcher.py are left out. They make an HTTP request, start a Chrome driver and navigate, all against external services. `launch_page` always returns `"200"`.
- `_find_elements_by_computed_style`, `_get_html_from_element` and `_handle_cookie_consent` are left out. botscout/__init__.py imports them, but neither botscout/_detector_utils.py nor botscout/_launcher_utils.py defines them (the detector function there is `find_elements_by_computed_style`, without the underscore). The HTML extractor, the cookie-consent dismisser and the recursive interactive-element locator are not part of this model.
