# StormRun signup widgets, modelled in Dafny

The StormRun marketing site has two email-signup widgets. This project
models both of them and proves properties of the model.

- **`MailerLiteInlineBanner`** (`src/components/MailerLiteBanner.tsx`) is a banner at the
  foot of the page. It owns a page-wide anonymous identifier (`generateGuid`, kept in
  `window.ml_guid_string` and `localStorage.ml_guid`). It validates the address with a
  fixed regular expression on the trimmed input, posts `{ fields: { email }, guid }` to
  the mailing-list endpoint, and turns the response into success or one of three error
  messages. Its Dismiss and Close buttons hide it.
- **`StayInformedModal`** (`src/components/StayInformedModal.tsx`) is a dialog. Its
  submit handler has a start phase and a completion phase that runs one second later.
  It accepts any address containing `@`.

## Layout

| file | module | what |
|---|---|---|
| `optional.dfy` | `Optional` | `Option`, for absent JavaScript values |
| `jstext.dfy` | `JsText` | `trim` and `toString(16)`, the JavaScript built-ins the code calls; and `split`/`join` on one character, the model's own means of deciding the pattern of `validateEmail` (the code never calls them) |
| `guid.dfy` | `Guid` | `s4` and `generateGuid`, with a decoder that inverts the token |
| `email.dfy` | `EmailValidation` | `validateEmail`: a split-based predicate, the pattern's language written piece by piece, and a proof that the two agree |
| `banner.dfy` | `MailerLiteBanner` | identifier initialisation, response classification, the banner's state transitions; classes `Window` and `Banner` |
| `modal.dfy` | `StayInformedModal` | the dialog's two phases; class `Modal` |

Stateful code is modelled as classes. `Window` holds the global identifier slot and the
storage. `Banner` and `Modal` hold the React state of each widget. Each method's
contract ties the new state to a pure transition function over a state value
(`Initialized`, `Begun`, `Resolved`, `Dismissed`, `Closed`, `Started`, `Completed`).
The lemmas are stated about those functions.

Inputs that the browser supplies become parameters:

- `Math.random()` becomes one draw `r < 0x10000` per `s4` call, eight per token.
  For a random double `x`, the draw stands for `floor((1 + x) * 0x10000) mod 0x10000`,
  where `1 + x` is the rounded double sum. `s4` then yields `S4(r)`: when the rounded
  sum is `2`, the source's `"20000".substring(1)` is `"0000"`, which is `S4(0)`.
- The `fetch` outcome becomes a `Response`: either a transport failure, or a status and
  a parsed body.
- Storage becomes an `Option<string>` plus a flag saying whether a write succeeds.
- The `onSuccess` callback becomes a boolean result of `Resolve`: whether it fires.

Points of the code worth noting:

- The identifier has eight four-digit groups (32 hex digits). It is read from the global
  slot first and from storage only when the slot is empty.
- The final domain label is 2–40 letters or digits (`[a-zA-Z0-9]`).
- `handleSubmit` in either widget does not check `submitting`, so `BeginSubmit` and
  `Start` have no precondition on it. In the banner the `Join` button is the form's
  default button, and while it is disabled the browser submits nothing, not even on
  Enter. The dialog's `Sign Up` button sits in the footer, outside the `<form>`, so its
  `disabled` attribute guards nothing: pressing Enter in the input submits the form
  again while a submission is pending.
- A JSON `null` body makes `body.success` (or `body.message`) throw. The `catch` then
  reports "Network error. Try again.", whatever the status. `Classify` models this.

## Model

| member | source | states |
|---|---|---|
| `JsText.TrimStart` | src/components/MailerLiteBanner.tsx:63 | the result is the suffix of the input that starts at its first non-whitespace character; everything dropped is whitespace |
| `JsText.TrimEnd` | src/components/MailerLiteBanner.tsx:63 | the result is the prefix that ends at the last non-whitespace character; everything dropped is whitespace |
| `JsText.Trim` | src/components/MailerLiteBanner.tsx:63 | `v.trim()` is no longer than `v` and neither begins nor ends with whitespace |
| `JsText.TrimIdempotent` | src/components/MailerLiteBanner.tsx:63 | trimming twice equals trimming once |
| `JsText.TrimEmptyIffBlank` | src/components/MailerLiteBanner.tsx:63 | `trim(v)` is empty exactly when `v` is empty or all whitespace |
| `JsText.TrimStartSkips` | src/components/MailerLiteBanner.tsx:63 | a whitespace prefix in front of a non-whitespace start is removed, and nothing more |
| `JsText.TrimEndSkips` | src/components/MailerLiteBanner.tsx:63 | a whitespace suffix after a non-whitespace end is removed, and nothing more |
| `JsText.TrimOfPadded` | src/components/MailerLiteBanner.tsx:63 | trimming whitespace padding off a string with non-whitespace ends gives that string back |
| `JsText.SplitOn` | src/components/MailerLiteBanner.tsx:62 | the split has at least one piece, joins back to the input, and no piece holds the separator |
| `JsText.SplitJoin` | src/components/MailerLiteBanner.tsx:62 | splitting a join of separator-free pieces returns those pieces, so the split is the unique such decomposition |
| `JsText.JoinCount` | src/components/MailerLiteBanner.tsx:62 | a join of k separator-free pieces holds the separator k-1 times |
| `JsText.SplitCount` | src/components/MailerLiteBanner.tsx:62 | the number of pieces is one more than the number of separators in the input |
| `JsText.ToHex` | src/components/MailerLiteBanner.tsx:12-13 | `n.toString(16)` is non-empty, lowercase hex, has no leading zero (unless it is "0"), and its digits denote `n` |
| `JsText.HexValueFront` | src/components/MailerLiteBanner.tsx:12-14 | the first hex digit weighs 16 to the power of the number of digits after it |
| `JsText.HexValueBound` | src/components/MailerLiteBanner.tsx:12-14 | k hex digits denote a number below 16^k |
| `JsText.FiveDigitHex` | src/components/MailerLiteBanner.tsx:12-14 | for `0x10000 <= n < 0x20000`, `n.toString(16)` has five digits and begins with `1`; the other four denote `n - 0x10000` |
| `Guid.S4` | src/components/MailerLiteBanner.tsx:11-15 | `s4()` is exactly four lowercase hex digits, and they denote the draw |
| `Guid.S4Injective` | src/components/MailerLiteBanner.tsx:11-15 | two draws give the same group exactly when they are equal |
| `Guid.GenerateGuid` | src/components/MailerLiteBanner.tsx:16-29 | the token is 36 characters with `-` at indices 8, 13, 18 and 23 and lowercase hex digits everywhere else |
| `Guid.GuidDraws` | src/components/MailerLiteBanner.tsx:16-29 | reading the eight groups of a well-shaped token gives eight valid draws |
| `Guid.GuidRoundTrip` | src/components/MailerLiteBanner.tsx:16-29 | decoding a generated token returns the draws it was made from |
| `Guid.GuidInjective` | src/components/MailerLiteBanner.tsx:16-29 | two tokens are equal exactly when their draws are equal |
| `EmailValidation.PiecesAvoidSeparators` | src/components/MailerLiteBanner.tsx:62 | no class of the pattern admits `@`, and no class after the `@` admits `.` |
| `EmailValidation.DottedJoin` | src/components/MailerLiteBanner.tsx:62 | `(label\.)+last` is the dot-join of the labels followed by the last label |
| `EmailValidation.RegexLanguage` | src/components/MailerLiteBanner.tsx:62 | the anchored language of the pattern, written piece by piece: a local part of `[a-zA-Z0-9_.+-]+`, `@`, one or more `[a-zA-Z0-9-]+` labels each followed by `.`, then a final `[a-zA-Z0-9]{2,40}` label (a definition; `PatternMatchesRegex` relates it to `MatchesPattern`) |
| `EmailValidation.MatchesPattern` | src/components/MailerLiteBanner.tsx:62 | the same pattern decided by splitting: exactly one `@`, a local part before it, and after it at least two `.`-separated pieces, all labels and the last a final label (a definition) |
| `EmailValidation.PatternMatchesRegex` | src/components/MailerLiteBanner.tsx:62 | the split-based check accepts exactly the strings the pattern matches |
| `EmailValidation.ValidateEmail` | src/components/MailerLiteBanner.tsx:61-64 | the input is accepted exactly when its trimmed form is in the pattern's language |
| `EmailValidation.TrimInvariance` | src/components/MailerLiteBanner.tsx:63 | `validateEmail(v) == validateEmail(v.trim())` |
| `EmailValidation.BlankRejected` | src/components/MailerLiteBanner.tsx:62-63 | the empty string and whitespace-only strings are rejected |
| `EmailValidation.AcceptedShape` | src/components/MailerLiteBanner.tsx:62 | an accepted trimmed address has exactly one `@`, a local part over `[A-Za-z0-9_.+-]`, at least one dot-terminated label over `[A-Za-z0-9-]`, and a final label of 2–40 letters or digits |
| `EmailValidation.WellFormedAccepted` | src/components/MailerLiteBanner.tsx:62-63 | every such address is accepted, with or without surrounding whitespace |
| `EmailValidation.AtCountRejected` | src/components/MailerLiteBanner.tsx:62 | a trimmed input with no `@`, or with more than one, is rejected |
| `EmailValidation.MissingAtRejected` | src/components/MailerLiteBanner.tsx:62-63 | an input containing no `@` is rejected |
| `EmailValidation.DotlessDomainRejected` | src/components/MailerLiteBanner.tsx:62 | a domain without a dot is rejected |
| `EmailValidation.DotlessSplit` | src/components/MailerLiteBanner.tsx:62 | with a single `@` and no dot after it, the domain splits into one piece, so the pattern does not match |
| `EmailValidation.AcceptedFinalLabel` | src/components/MailerLiteBanner.tsx:62 | in an accepted address the text after the last dot is 2–40 letters or digits |
| `EmailValidation.FinalLabelLengthRejected` | src/components/MailerLiteBanner.tsx:62 | an input whose text after the last dot is shorter than 2 or longer than 40 characters is rejected |
| `EmailValidation.PlainAddressAccepted` | src/components/MailerLiteBanner.tsx:61-64 | "user@example.com" is accepted |
| `EmailValidation.PaddedAddressAccepted` | src/components/MailerLiteBanner.tsx:61-64 | "  a@b.co  " and "a@b.co" are both accepted |
| `EmailValidation.NoAtRejected` | src/components/MailerLiteBanner.tsx:61-64 | "not-an-email" is rejected |
| `MailerLiteBanner.Initialized` | src/components/MailerLiteBanner.tsx:44-59 | a non-empty global identifier is kept as is; otherwise a non-empty stored one is adopted; otherwise a fresh well-shaped token is set globally and stored only if the write succeeds; the global identifier is never empty afterwards |
| `MailerLiteBanner.InitIdempotent` | src/components/MailerLiteBanner.tsx:44-59 | running the initialisation again, with any draws, changes nothing |
| `MailerLiteBanner.InitKeepsOrGenerates` | src/components/MailerLiteBanner.tsx:44-59 | afterwards the identifier is the earlier global one, the stored one, or a fresh well-shaped token |
| `MailerLiteBanner.Window.InitGuid` | src/components/MailerLiteBanner.tsx:44-59 | the mount effect moves the store to `Initialized` of its old value; a failed storage write is swallowed |
| `MailerLiteBanner.Classify` | src/components/MailerLiteBanner.tsx:82-101 | success holds exactly when the status is 200, the body is not null and does not say `success: false`; a failure message is the body's non-empty message, else "Submission failed. Try again."; a rejected fetch or a null body gives "Network error. Try again."; no failure message is empty |
| `MailerLiteBanner.ResponseExamples` | src/components/MailerLiteBanner.tsx:82-101 | a 200 with an unparseable body subscribes; a 500 with message "list full" shows "list full"; a rejected fetch shows the network error |
| `MailerLiteBanner.Begun` | src/components/MailerLiteBanner.tsx:66-75 | an invalid address sets the error to exactly "Please enter a valid email." and nothing else; a valid one clears the error and sets `submitting`; visibility, success and the address never change |
| `MailerLiteBanner.RequestFor` | src/components/MailerLiteBanner.tsx:70-80 | a request is sent exactly when the address validates; its email is the trimmed address, which is itself valid and trimmed; its guid is the global identifier if set, else a fresh well-shaped token |
| `MailerLiteBanner.Resolved` | src/components/MailerLiteBanner.tsx:82-101 | `submitting` ends false and the address is kept on every path; on success `success` is set and `visible` set to false (the success view, which ignores `visible`, is what shows until Close); on failure the error is the classified message and success and visibility are kept |
| `MailerLiteBanner.Dismissed` | src/components/MailerLiteBanner.tsx:181 | Dismiss sets `visible` to false and changes nothing else |
| `MailerLiteBanner.Closed` | src/components/MailerLiteBanner.tsx:132-135 | Close clears `success` and hides the banner, keeping the address, error and `submitting` |
| `MailerLiteBanner.DismissIdempotent` | src/components/MailerLiteBanner.tsx:181 | dismissing twice equals dismissing once |
| `MailerLiteBanner.SubmitCycle` | src/components/MailerLiteBanner.tsx:66-101 | a valid submit from the form view (success is false there) ends with nothing pending and exactly one of success or a non-empty error; success sets `visible` to false, while the success view, which ignores `visible`, stays on screen |
| `MailerLiteBanner.InvalidSubmitSendsNothing` | src/components/MailerLiteBanner.tsx:70-73 | an invalid address sends no request and only sets the validation message |
| `MailerLiteBanner.Banner.constructor` | src/components/MailerLiteBanner.tsx:34-42 | initial state: visibility as configured (`false` when the `initiallyVisible` prop is omitted), empty address, not submitting, no error, no success |
| `MailerLiteBanner.Banner.SetEmail` | src/components/MailerLiteBanner.tsx:166 | typing replaces the address and nothing else |
| `MailerLiteBanner.Banner.BeginSubmit` | src/components/MailerLiteBanner.tsx:66-81 | the state moves to `Begun` of the old state, and the request returned is `RequestFor` of the old state and the global identifier |
| `MailerLiteBanner.Banner.Resolve` | src/components/MailerLiteBanner.tsx:82-101 | the state moves to `Resolved`; the callback fires exactly on success when one was supplied |
| `MailerLiteBanner.Banner.Dismiss` | src/components/MailerLiteBanner.tsx:181 | the state moves to `Dismissed` |
| `MailerLiteBanner.Banner.Close` | src/components/MailerLiteBanner.tsx:132-135 | the state moves to `Closed` |
| `StayInformedModal.Started` | src/components/StayInformedModal.tsx:19-21 | after the start phase `submitting` is true, the error is empty, success is false, and the address is unchanged |
| `StayInformedModal.Accepts` | src/components/StayInformedModal.tsx:24 | `email.includes("@")`: true exactly when some position of the address holds `@` |
| `StayInformedModal.Completed` | src/components/StayInformedModal.tsx:23-31 | with `@` in the captured address, success is set and the input cleared; without it, the error is exactly "Please enter a valid email address." and success and the input are kept; `submitting` ends false on both branches |
| `StayInformedModal.CompletionExclusive` | src/components/StayInformedModal.tsx:19-30 | after a start and its completion, exactly one of success and a non-empty error holds, and success is exactly the presence of `@` |
| `StayInformedModal.AcceptanceOnlyByAt` | src/components/StayInformedModal.tsx:24 | two addresses that agree on containing `@` get the same verdict and the same error |
| `StayInformedModal.LoneAtAccepted` | src/components/StayInformedModal.tsx:24 | the address "@" alone is accepted |
| `StayInformedModal.OverlappingSubmitsShowBoth` | src/components/StayInformedModal.tsx:17-31 | if the handler runs with an address without `@` and runs again with a corrected address before the first timer fires, both completions leave success and the error set together |
| `StayInformedModal.Modal.constructor` | src/components/StayInformedModal.tsx:12-15 | initial state: empty address, not submitting, no success, empty error |
| `StayInformedModal.Modal.SetEmail` | src/components/StayInformedModal.tsx:46 | typing replaces the address and nothing else |
| `StayInformedModal.Modal.Start` | src/components/StayInformedModal.tsx:17-21 | the state moves to `Started`, and the address returned is the one the timer callback captures |
| `StayInformedModal.Modal.Complete` | src/components/StayInformedModal.tsx:23-31 | the state moves to `Completed` for the captured address |

## Left out

- `src/pages/index.tsx` is static markup with animation, parallax and a mouse listener. It has no state logic to model.
- Rendering and CSS are not modelled. That includes the success view, the `display: none` style and the dialog's `open`/`onClose`. So is React's batching of state updates. The model applies each handler's updates in source order.
- Timing is not modelled: the modal's 1000 ms delay and the wait for `fetch`. Each completion is a separate step.
- Network I/O is not modelled: the endpoint URL, the method, the headers, `credentials: "omit"` and `JSON.stringify`. A request is modelled only as its `Payload` fields.
- The `typeof window !== "undefined"` guard is not modelled. On the server the effect does nothing.
- Reading `window.localStorage` can itself throw when storage is blocked. That exception is not caught, and it is not modelled. Only the write failure is modelled, and it is swallowed.
- `Math.random()` and its floating-point arithmetic are replaced by the integer draws described above. How a double `x` maps to its draw is not modelled: because `1 + x` rounds, the draw can differ from `floor(x * 0x10000)` by one (and wraps to `0` when the sum rounds to `2`); no property of the token depends on that. Nothing is claimed about randomness or uniqueness beyond injectivity in the draws. The token has the textual layout of RFC 4122 but sets no version or variant bits, so it is not claimed to be an RFC 4122 UUID.
- A `success` field that is not a boolean behaves like a missing field in the source, because the code only compares it with `=== false`. So `Body` keeps only boolean values. A `message` that is truthy but not a string is not modelled. JSON bodies that are primitives other than `null` behave like `{}`, which is `Fields(None, None)`.
- An exception thrown by `onSuccess` is not modelled; the callback is a boolean event. In the source such an exception would reach the `catch` after `success` was set.
- Re-entrant submits are not modelled for the banner: neither handler checks `submitting`, and the banner's disabled default button stops a second submit. `SubmitCycle` and `CompletionExclusive` describe one submission at a time. `OverlappingSubmitsShowBoth` states what the dialog's handler does if it runs twice before the first timer fires.
- The HTML constraint validation that runs before either `handleSubmit` is not modelled. Both inputs are `type="email"` and `required`, so a browser that validates refuses to submit an empty address or one without `@`. The handlers are modelled as written, for any address; in particular the dialog's error branch, and the first run in `OverlappingSubmitsShowBoth`, are behaviour of the handler that such a browser does not let the page reach.
- The dialog's submit button sits outside its `<form>`; whether a click on it submits the form is a DOM concern and is not modelled. Form submission (for example Enter in the input) is taken as the event that runs `Start`.
- JavaScript strings are sequences of UTF-16 code units; `string` here is a sequence of Unicode scalar values, so a lone surrogate cannot be represented. The verdicts are unaffected: every character class in the pattern and every whitespace character lies in the Basic Multilingual Plane.
- `JsText.IsWhitespace` lists ECMAScript's WhiteSpace and LineTerminator characters, with the Unicode space separators (category Zs) of current Unicode versions written out. A future Unicode version that adds a space separator is not covered.
