# SUNARP vehicle query: a verified model of `consultar_vehiculo`

`api_sunarp.py` answers a licence plate with the registry's result image.
It drives a headless Chromium session through the SUNARP vehicle portal:
it reads the captcha with OCR, types the plate and the captcha text, and
clicks search. It makes up to 35 attempts, each after the first on a
refreshed page with a new captcha, until the result image appears or is
known to be missing. This project models the logic of
that function, with the browser and the OCR engine replaced by what they
report on each page load. It proves properties of three parts:

- **`CaptchaText`**: the normalisation of the OCR text at the end of
  `leer_captcha`. The fragments are joined, spaces are removed, the text is
  stripped, and every character other than an ASCII letter or digit is
  deleted. The proofs show the result is exactly the alphanumeric
  subsequence of the joined fragments. It holds only `[A-Za-z0-9]`, is
  idempotent, is never longer than its input, is empty for an empty OCR
  result, and distributes over concatenation of the fragment list.
- **`DataUri`**: `src.split(",")[1]`, which takes the payload of the captcha
  image and of the result image. `Split` models Python's `str.split`. It
  is defined by recursion and proved to be inverted by `JoinWith`
  (`SplitJoin`) and to yield separator-free fields (`SplitFields`). The
  payload is the comma-free field after the first comma. A `src` without a comma raises `IndexError`. The reply's `base64` field
  hands the same payload back to a client that splits it again.
- **`RetryController`** and **`Client`**: the retry loop.
  - `RetryController` defines, as functions, the calls one round makes on the
    browser and how it ends (`Round`). It also defines the whole loop
    (`Loop`, `Consultation`) and the three reply dictionaries (`Reply`).
  - `Client` is the imperative program. A `Session` class stands for the
    browser, with the page load counter, whether the session is open, and a
    ghost log of every call made on it.
  - Its methods are the helpers nested in `consultar_vehiculo`. `Attempt` is
    one pass through the loop body. `RetryLoop` is the `while` loop over the
    mutable counter. `ConsultVehicle` is the whole function.
  - Each method is proved to make exactly the calls, and to return exactly
    the outcome, that the functional definition gives.
  - The lemmas about that definition give the protocol the code follows:
    - at most 35 rounds, and one captcha read per round;
    - a refresh in every round but the first;
    - a short text skips submission;
    - the popup and the warning each retry, and the popup is tested first;
    - looking for the result always ends the loop, so the final `intento += 1`
      is unreachable;
    - `driver.quit()` is called exactly once, as the last call, before each of
      the three replies, and never when an exception escapes;
    - the exhausted reply comes exactly when the counter has passed the
      bound, at 36.

A page load is described by an `Observation`, which records:
- the captcha's `src`;
- the OCR fragments read from it;
- whether the search button becomes clickable;
- whether the invalid-captcha popup or the "Ingrese el captcha" alert
  appears;
- the result image's `src`, or `None` when the element is missing.

The consultation takes a function `page: nat -> Observation`, giving the
observation of the `n`-th load. `driver.get` is load 1, each
`driver.refresh()` adds one, so attempt `n` runs on load `n`.

## Model

| member | source | states |
|---|---|---|
| CaptchaText.IsAsciiAlnum | api_sunarp.py:73 | definition of the regular-expression class `[A-Za-z0-9]`; characterised by KeepAlnumProperties, KeepAlnumCounts and KeepAlnumFixes |
| CaptchaText.IsWhitespace | api_sunarp.py:71 | definition of the characters `strip()` removes, the set for which Python's `str.isspace()` holds; characterised by StripLeftProperties and StripRightProperties |
| CaptchaText.Join | api_sunarp.py:70 | definition of `"".join(...)` over the OCR fragments; characterised by JoinOne and JoinAppend |
| CaptchaText.Remove | api_sunarp.py:71 | definition of `replace(" ", "")`; characterised by RemoveProperties and RemoveAppend |
| CaptchaText.StripLeft | api_sunarp.py:71 | definition of the leading half of `strip()`; characterised by StripLeftProperties |
| CaptchaText.StripRight | api_sunarp.py:71 | definition of the trailing half of `strip()`; characterised by StripRightProperties |
| CaptchaText.Strip | api_sunarp.py:71 | definition of `strip()` as the right strip of the left strip; characterised by StripLeftProperties and StripRightProperties |
| CaptchaText.KeepAlnum | api_sunarp.py:73 | definition of `re.sub(r"[^A-Za-z0-9]", "", s)`; characterised by KeepAlnumProperties, KeepAlnumCounts and KeepAlnumAppend |
| CaptchaText.Normalise | api_sunarp.py:68-74 | definition of the captcha text computed from the OCR fragments; characterised by NormaliseIsFilter and NormaliseProperties |
| CaptchaText.JoinOne | api_sunarp.py:70 | joining a single fragment gives that fragment |
| CaptchaText.RemoveProperties | api_sunarp.py:71 | `replace(" ", "")` leaves no occurrence of the character, keeps every other character as often as it occurs, never lengthens the text, and leaves a text without the character unchanged |
| CaptchaText.RemoveAppend | api_sunarp.py:71 | removal distributes over concatenation, so what remains keeps its order |
| CaptchaText.StripLeftProperties | api_sunarp.py:71 | the left strip is a suffix of its input that does not start with whitespace, and every character removed before it is whitespace |
| CaptchaText.StripRightProperties | api_sunarp.py:71 | the right strip is a prefix of its input that does not end with whitespace, and every character removed after it is whitespace |
| CaptchaText.KeepAlnumProperties | api_sunarp.py:73 | `re.sub(r"[^A-Za-z0-9]", "", s)` leaves only ASCII letters and digits and never lengthens the text |
| CaptchaText.KeepAlnumAppend | api_sunarp.py:73 | the filter distributes over concatenation |
| CaptchaText.KeepAlnumCounts | api_sunarp.py:73 | each ASCII letter or digit is kept as often as it occurs, and every other character is dropped |
| CaptchaText.KeepAlnumFixes | api_sunarp.py:73 | a text of ASCII letters and digits passes the filter unchanged |
| CaptchaText.KeepAlnumIdempotent | api_sunarp.py:73 | applying the filter twice is the same as once |
| CaptchaText.KeepAlnumIgnoresRemove | api_sunarp.py:71-73 | removing spaces before the filter does not change its result |
| CaptchaText.KeepAlnumIgnoresStripLeft | api_sunarp.py:71-73 | stripping leading whitespace before the filter does not change its result |
| CaptchaText.KeepAlnumIgnoresStripRight | api_sunarp.py:71-73 | stripping trailing whitespace before the filter does not change its result |
| CaptchaText.NormaliseIsFilter | api_sunarp.py:68-74 | the captcha text is the alphanumeric subsequence of the joined OCR fragments, and the early `""` return for an empty OCR result agrees with it |
| CaptchaText.NormaliseProperties | api_sunarp.py:68-74 | the captcha text holds only `[A-Za-z0-9]`, normalising it again changes nothing, it is no longer than the joined fragments, and it is `""` when OCR found nothing |
| CaptchaText.JoinAppend | api_sunarp.py:70 | joining a concatenated fragment list is concatenating the joins |
| CaptchaText.NormaliseAppend | api_sunarp.py:68-74 | normalising two parts of the OCR result separately and concatenating gives the normalised whole |
| DataUri.Split | api_sunarp.py:54 | `split(",")` never yields an empty list |
| DataUri.JoinWith | api_sunarp.py:54 | definition of `sep.join(parts)`, the inverse of the split; related by SplitJoin |
| DataUri.SplitFields | api_sunarp.py:54 | no field of the split contains the separator |
| DataUri.SplitJoin | api_sunarp.py:54 | joining the fields with the separator gives back the input |
| DataUri.SplitCount | api_sunarp.py:54 | there is one more field than there are separators |
| DataUri.SplitCons | api_sunarp.py:54 | a separator-free head followed by a separator splits into that head and then the fields of the rest |
| DataUri.SplitNone | api_sunarp.py:54 | a separator-free text is one field |
| DataUri.Payload | api_sunarp.py:54 | definition of `src.split(",")[1]`, used at lines 54 and 128, with its IndexError; characterised by PayloadDefined, PayloadBetweenCommas and PayloadShape |
| DataUri.PayloadDefined | api_sunarp.py:54 | `split(",")[1]` raises IndexError exactly when the `src` has no comma; otherwise the payload has no comma and is shorter than the `src` |
| DataUri.PayloadBetweenCommas | api_sunarp.py:128 | the payload is the text between the first comma and the next comma or the end |
| DataUri.PayloadShape | api_sunarp.py:128 | conversely, a `src` with a comma is the comma-free first field, a comma, the payload, and then the end or another comma |
| DataUri.PrefixedPayloadRoundTrip | api_sunarp.py:161 | the payload behind `"data:image/png;base64,"` splits back to the same payload |
| RetryController.ReadCaptcha | api_sunarp.py:48-74 | definition of `leer_captcha()` on a page: the payload split, then the normalisation; characterised by ReadCaptchaDefined |
| RetryController.Opening | api_sunarp.py:132-136 | definition of the calls that open a round: a refresh unless on attempt 1, then the captcha read; characterised by FramedWellFormed |
| RetryController.AfterRead | api_sunarp.py:136-170 | definition of a round's calls and outcome after the captcha read; characterised by AfterReadVerdict |
| RetryController.Closing | api_sunarp.py:155-173 | definition of the `driver.quit()` made before a reply and not when an exception escapes; characterised by FramedWellFormed |
| RetryController.Round | api_sunarp.py:131-171 | definition of one pass through the loop body; characterised by RoundWellFormed, ShortCaptchaRound, SubmittedRound, PopupRound, WarningRound and ExtractionRound |
| RetryController.Submits | api_sunarp.py:136-142 | definition of a round reaching data entry: the captcha is read and its text has at least 6 characters; characterised by SubmittedRound and AfterReadVerdict |
| RetryController.Extracts | api_sunarp.py:138-154 | definition of a round reaching the result lookup: it submits, and neither the popup nor the warning appears; characterised by ResultReadAfterRead, ExtractionRound and AfterReadVerdict |
| RetryController.Retries | api_sunarp.py:138-152 | definition of a round ending in `continue`: a short text, the popup or the warning; characterised by AfterReadVerdict (a round retries exactly when this holds) |
| RetryController.ReadCaptchaDefined | api_sunarp.py:48-74 | `leer_captcha` raises exactly when the captcha `src` has no comma, and otherwise returns the alphanumeric part of the OCR fragments |
| RetryController.AfterReadVerdict | api_sunarp.py:136-170 | after the captcha read a round makes only form and probe calls; it retries exactly on a short text, the popup or the warning; reaching extraction always ends it; its reply echoes the plate and is never Exhausted; NotFound exactly when extraction finds no image; Found only with the result image's payload; IndexError exactly when a `src` has no comma |
| RetryController.FramedWellFormed | api_sunarp.py:131-170 | wrapping the form and probe calls in the opening refresh and read and the closing quit gives exactly one captcha read, a refresh unless on the first attempt, and one quit, as the last call, exactly when the round replies |
| RetryController.RoundWellFormed | api_sunarp.py:131-170 | every round, whatever the page shows, has that well-formed call pattern |
| RetryController.ShortCaptchaRound | api_sunarp.py:138-141 | a captcha text under 6 characters retries after only the refresh and read: no data entry, click, popup or warning check, or extraction |
| RetryController.SubmittedRound | api_sunarp.py:142-145 | a long enough text is entered with the plate, the search is tried and the popup checked; a round that does not get that far makes no form call |
| RetryController.PopupRound | api_sunarp.py:145-148 | with the popup shown, it is dismissed and the round retries without the warning check or extraction |
| RetryController.WarningRound | api_sunarp.py:149-152 | without the popup but with the warning, the round retries without extraction and without dismissing anything |
| RetryController.ResultReadAfterRead | api_sunarp.py:138-154 | the result image is looked for exactly when the text is long enough and neither popup nor warning appeared |
| RetryController.ExtractionRound | api_sunarp.py:153-171 | extraction happens exactly under those conditions and always ends the loop, so line 171 is unreachable; a missing image gives NotFound, and an image gives Found with its payload |
| RetryController.Loop | api_sunarp.py:130-179 | the loop started at or under the bound ends with a counter between its start and 36 |
| RetryController.Rounds | api_sunarp.py:130-136 | definition of the rounds a consultation makes: attempt `n` runs on page load `n`, since `driver.get` is the first load and every attempt after the first refreshes once; characterised by RoundsWellFormed and ConsultationFirstFinish |
| RetryController.Consultation | api_sunarp.py:130-179 | definition of the whole run of `consultar_vehiculo` on the portal's pages; characterised by ConsultationReplies, ConsultationRounds, ConsultationFirstFinish and ConsultationExhausts |
| RetryController.LoopReplies | api_sunarp.py:130-179 | on any well-formed rounds, every reply echoes the plate; the session is quit exactly once, as the last call, when the function replies, and never otherwise; the reply is Exhausted exactly when the counter passed the bound |
| RetryController.LoopRounds | api_sunarp.py:130-136 | from attempt `k > 1` the loop reads one captcha and refreshes once per round run |
| RetryController.LoopFirstFinish | api_sunarp.py:130-179 | every round before the last one retried; within the bound, the run ends as its last round does; past it, the counter is 36 and the reply Exhausted |
| RetryController.RoundsWellFormed | api_sunarp.py:131-170 | all rounds produced by the pages are well formed |
| RetryController.ConsultationReplies | api_sunarp.py:153-179 | the consultation ends with a counter from 1 to 36, Exhausted exactly at 36; every reply echoes the plate; exactly one quit, as the last call, on each reply and none when an exception escapes |
| RetryController.LoopRoundsFromFirst | api_sunarp.py:130-136 | from attempt 1, between 1 and 35 captcha reads, one per round, and one refresh fewer |
| RetryController.ConsultationRounds | api_sunarp.py:130-136 | a consultation runs at most 35 rounds, reads one captcha per round, and refreshes in every round but the first |
| RetryController.ConsultationFirstFinish | api_sunarp.py:130-179 | every page before the last attempt made the round retry; within the bound, the last page did not and its round decides the result; otherwise the counter is 36 and the reply Exhausted |
| RetryController.ConsultationExhausts | api_sunarp.py:173-179 | conversely, when every one of the 35 pages makes its round retry, the reply is Exhausted and the counter 36 |
| RetryController.Reply | api_sunarp.py:156-179 | every reply has `status`, `message` and `Placa`, with `Placa` the plate; `status` is `"success"` for Found and `"error"` for the two other replies; `base64` is present exactly for Found, and `Developer` exactly for Found and Exhausted |
| RetryController.SuccessReply | api_sunarp.py:156-162 | a Found reply comes from an extraction within the bound whose result image's `src` has a payload; it echoes the plate, its `base64` field is `"data:image/png;base64,"` followed by that payload, and splitting it again gives the payload back |
| Client.Session.constructor | api_sunarp.py:38-43 | a new session is open, on its first page load, with no calls made |
| Client.Session.Refresh | api_sunarp.py:132-135 | `driver.refresh()` loads the next page and logs the refresh |
| Client.Session.ReadCaptchaText | api_sunarp.py:48-74 | `leer_captcha` returns the normalised text of the current page or its IndexError, and logs the read |
| Client.Session.EnterData | api_sunarp.py:76-86 | entering the plate and the captcha text is logged with both |
| Client.Session.ClickSearch | api_sunarp.py:88-97 | the click happens when the page's button becomes clickable, and a timeout is only logged |
| Client.Session.DismissErrorPopup | api_sunarp.py:99-108 | it reports the popup of the current page and dismisses it when shown |
| Client.Session.CaptchaWarningShown | api_sunarp.py:110-120 | it reports the "Ingrese el captcha" alert of the current page |
| Client.Session.FindResultImage | api_sunarp.py:127 | it returns the result image's `src`, or None for `NoSuchElementException` |
| Client.Session.Quit | api_sunarp.py:173 | `driver.quit()` closes the session and logs the quit |
| Client.Session.Submit | api_sunarp.py:142-170 | for a long enough text, the calls made from data entry on, in order, and the verdict are those of `AfterRead` |
| Client.Session.Attempt | api_sunarp.py:131-171 | one loop pass on attempt `n` leaves the session on load `n`; it makes exactly the calls of `Round` and returns its verdict; the session stays open exactly when the pass does not reply |
| Client.LoopRetry | api_sunarp.py:138-152 | after a retrying round the run continues as the loop from the next attempt |
| Client.LoopFinish | api_sunarp.py:153-170 | a round that finishes ends the run with its own verdict and attempt |
| Client.LoopExhausted | api_sunarp.py:173-179 | past the bound the run only quits and replies Exhausted with the counter at 36 |
| Client.Pass | api_sunarp.py:130-171 | one iteration of the `while` loop keeps the loop invariant: the session is left on load `attempt` and closed exactly when the attempt replies; after a retry the rest of the run is the loop from the next attempt; after a finish the run is complete |
| Client.RetryLoop | api_sunarp.py:45-179 | the `while` loop over the mutable counter, started at 1, makes exactly the calls of `Loop`, ends with its result, and leaves the counter at its final value; the session is closed exactly when a reply is returned and stays open when an exception escapes, on the load of the last round run |
| Client.ConsultVehicle | api_sunarp.py:18-179 | the whole query equals `Consultation`. Its reply is the dictionary for the outcome. The counter ends between 1 and 36, at 36 exactly for Exhausted. A reply echoes the plate and ends the log with the one quit. No quit is logged when an exception escapes. The captcha reads equal the rounds run, and the refreshes are one fewer |

## Left out

- Chromium options, the driver binary paths and navigation to the portal URL (lines 29-43) are browser setup. The model starts from an open session on its first load.
- WebDriver waits and their timeouts are not modelled. The popup, warning and click waits become booleans of the page observation. The wait for the captcha image and the lookup of the input fields are assumed to succeed. A `TimeoutException` or `NoSuchElementException` there escapes the function without `driver.quit()`, and that path is not modelled.
- Base64 decoding and the writes of `captcha.png` and `captcha_processed.png` (lines 57-58, 63) are file I/O. A payload that is not valid base64 would raise in `b64decode`; the model does not represent that.
- OpenCV grayscale and threshold (lines 61-62) and EasyOCR recognition (lines 66-67) are numeric image processing and a foreign library. The fragment list they produce is taken as part of the page observation.
- Nothing is modelled for `time.sleep` and `print`.
- The Flask route and the port configuration (lines 184-200) are HTTP plumbing. `ConsultVehicle` returns the dictionary that `jsonify` would serialise.
- Client.ConsultVehicle: the `IndexError` that `split(",")[1]` raises is returned as `Failure(IndexError)` with an empty reply, not as an exception. Every other exception is outside the model.
- Client.Session.Attempt: the loop body is split into `Attempt`, `Submit` and `Pass`. The quit before a reply is made in `Attempt`, after `Submit` has chosen the reply rather than inside the `try`. The order of calls it logs is the code's.
- Client.Session: what the portal shows is fixed in advance, as a function of the load count; the model does not describe what the portal does in response to a submission.
- The `intento += 1` after the `try` (line 171) has no counterpart in `Attempt`, because `ExtractionRound` proves it is never reached.
- Once 35 rounds have retried, the loop leaves with the counter at 36. `RoundsRun` counts the rounds themselves, so it is 35 there.
