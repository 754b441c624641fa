# Page script of a static marketing site, modelled in Dafny

The site's only program is `script.js`, a browser script that wires a few
behaviours onto the page. This project models the parts with behaviour you can
state:

- **Contact form** (`contact_form.dfy`). The submit handler trims the name,
  email and message. It runs all three checks: name at least 2 characters,
  email matching `^[^\s@]+@[^\s@]+\.[^\s@]+$`, message at least 10 characters.
  It writes an error text next to every failing field. If any check fails it
  stops. Otherwise it simulates a send while the endpoint still contains
  `your-form-id`. With a configured endpoint it POSTs the trimmed values and
  reports the reply: thanks and a form reset, the server's `error` text (or a
  fallback), or a network-error text. The network-error text also appears
  for a non-ok reply whose body is the JSON `null`, because reading its
  `error` member throws.
- **Whitespace and trimming** (`text.dfy`). One character class, the
  ECMAScript WhiteSpace and LineTerminator code points, serves both `trim` and
  `\s`.
- **Email pattern** (`email_pattern.dfy`). `ValidEmail` is a structural
  predicate: no whitespace, exactly one `@`, a non-empty local part, and a
  domain with a `.` that is neither its first nor its last character.
  `MatchesPattern` is the regular expression read as `L "@" D1 "." D2`, with
  each piece a non-empty run of `[^\s@]`. The two are proved equivalent.
- **Scroll reveal** (`reveal.dfy`). Each `.reveal` element has a phase:
  unobserved, observed or revealed. The observer callback reveals intersecting
  targets and stops observing them. Which targets intersect, batch by batch,
  is an input.
- **Navigation** (`nav.dfy`). The toggle button flips the panel's `open` class
  and copies it into `aria-expanded`. An in-page link click (an `href` starting
  with `#`) cancels navigation and looks the target up with
  `document.querySelector(href)`. If the lookup succeeds, the handler closes
  the panel. The lookup throws for an `href` that is not a valid CSS selector,
  such as `#` alone or `#2024`. The handler then stops before the close, and
  an open panel stays open. Whether the lookup throws is an input of each
  link click.

The network, the DOM and the clock are not modelled. The reply to `fetch`
(or its failure) is a `Transport` parameter. The page address is a parameter.
Each DOM text is a field of a result value. Timed steps appear in their order
of effect: `Outcome.statusTrace` lists the successive texts of the status
element.

## Model

| member | source | states |
|---|---|---|
| Text.Trim | script.js:69-71 | The trimmed value has no whitespace at either end, is no longer than the input, and is empty exactly when the input is all whitespace. |
| Text.TrimUnique | script.js:69-71 | Whenever a value splits into whitespace, a middle with non-whitespace ends, and whitespace, `Trim` returns that middle, so the trimmed text is unique. |
| Text.TrimIgnoresPadding | script.js:69-71 | Whitespace added before and after a value never changes its trimmed form. |
| Text.TrimIdempotent | script.js:69-71 | Trimming an already trimmed value changes nothing. |
| EmailPattern.ValidFromParts | script.js:75 | Any `L@D1.D2` built from non-empty runs of `[^\s@]` passes the structural email check. |
| EmailPattern.PartsFromValid | script.js:75 | Every string passing the structural email check splits into non-empty `[^\s@]` runs `L`, `D1`, `D2` with the string equal to `L@D1.D2`. |
| EmailPattern.ValidEmailIffPattern | script.js:75 | The structural check (no whitespace, one `@`, non-empty local part, inner `.` in the domain) accepts exactly the strings the regular expression matches. |
| EmailPattern.ShortIsRejected | script.js:75 | No string shorter than five characters matches the email pattern. |
| EmailPattern.MissingAtIsRejected | script.js:75 | No string without an `@` matches the email pattern. |
| EmailPattern.RejectsDomainWithoutDot | script.js:75 | `a@b` is rejected. |
| EmailPattern.RejectsMissingAt | script.js:75 | `noatsign.com` is rejected. |
| EmailPattern.AcceptsSampleAddress | script.js:75 | `jane@example.com` matches the email pattern. |
| EmailPattern.EmailTest | script.js:75 | The computed email test accepts exactly the strings the regular expression matches. |
| ContactForm.Passes | script.js:74-76 | The handler's check of each field agrees with that field's rule: trimmed name length at least 2, trimmed email matching the pattern, trimmed message length at least 10. |
| ContactForm.FailingFields | script.js:73-76 | All three checks run. A field is reported exactly when it fails its own rule: trimmed name shorter than 2, trimmed email not matching the pattern, or trimmed message shorter than 10. |
| ContactForm.ErrorTexts | script.js:115-123 | After `clearErrors` and one `showError` per failing field, every field's error element holds text exactly when that field failed. |
| ContactForm.RejectionText | script.js:106-107 | A non-ok reply shows the server's `error` when it is a non-empty string and the fallback text otherwise. The shown text is never empty. |
| ContactForm.Send | script.js:79-112 | With a placeholder endpoint nothing is sent, the status goes from the simulated notice to the simulated thanks, and the form is reset. Otherwise the payload is sent after "Sending...". An ok reply ends in the thank-you text. A non-ok reply ends in the rejection text, except that a JSON `null` body ends in the network-error text, as a thrown request does. The form is reset exactly on the placeholder path or an ok reply. |
| ContactForm.ResetOnlyAfterThanks | script.js:79-112 | After a send the status text is never empty, and the form is reset only when a thank-you text is showing. |
| ContactForm.Submit | script.js:65-112 | Each field's error text is its message exactly when that field fails its rule. A failing submission aborts with only the cleared status. A passing one continues as `Send` with the trimmed name, email and message and the page address. |
| ContactForm.InvalidSubmissionIsInert | script.js:67-77 | When any check fails, nothing is sent or simulated, the status text stays empty, the form is not reset, and at least one error text is shown, whatever the endpoint or network would do. |
| ContactForm.SubmitSeesOnlyTrimmedValues | script.js:69-94 | Two inputs with the same trimmed values produce identical submissions. |
| ContactForm.SubmitIgnoresPadding | script.js:69-71 | Whitespace typed around any field changes neither the verdict, the texts, nor the payload. |
| ContactForm.ShippedEndpointIsPlaceholder | script.js:10 | The endpoint the script ships with contains the placeholder marker. |
| ContactForm.ShippedEndpointOnlySimulates | script.js:80-88 | With the shipped endpoint no request is ever made, and the form is reset exactly when all fields pass. |
| ContactForm.AcceptedWhenAlreadyTrimmed | script.js:69-76 | Values without surrounding whitespace are judged as typed: long enough name and message and a matching email pass all checks. |
| ContactForm.SampleIsValid | script.js:69-76 | The sample input (`Jane Doe`, `jane@example.com`, `Hello, this is a test message.`) passes all three checks. |
| Reveal.ObserveAll | script.js:59 | Start-up observes every `.reveal` element, so none is left unobserved. An element that already carries `revealed` is observed too and stays in the `Revealed` phase. An element is revealed afterwards exactly when it was revealed before. |
| Reveal.OnIntersection | script.js:50-57 | After one batch an element is revealed exactly when some entry reported it intersecting; every other element keeps its phase. |
| Reveal.DeliverReveals | script.js:50-57 | Over any sequence of batches an element ends revealed exactly when it was revealed already or some batch reported it intersecting; otherwise it keeps its phase. |
| Reveal.RevealedStaysRevealed | script.js:52-54 | A revealed element stays revealed through any later batches. |
| Reveal.RevealIsMonotonic | script.js:52-54 | The set of revealed elements never shrinks. |
| Reveal.StartupThenDeliver | script.js:50-59 | After start-up no element is unobserved. An element is revealed exactly when some batch has reported it intersecting. |
| Nav.ToggleClick | script.js:22-27 | A toggle click flips the panel's open state and leaves `aria-expanded` equal to the new state. |
| Nav.ToggleTwiceRestores | script.js:23-25 | Two toggle clicks restore the open state, and a mirrored state entirely. |
| Nav.LinkClick | script.js:30-40 | A link click is cancelled exactly when its `href` starts with `#`. If the target lookup throws, the panel is left as it was. Otherwise it ends closed. `aria-expanded` is never touched. Other links change nothing. |
| Nav.LinkClickLeavesAttributeStale | script.js:37 | Opening the panel and then clicking `#about` leaves a closed panel whose button still says `aria-expanded="true"`. |
| Nav.LinkClickWithBadSelectorKeepsPanelOpen | script.js:35-37 | Opening the panel and then clicking `#`, whose lookup throws, cancels the navigation but leaves the panel open. |
| Nav.LinkClickCorrected | script.js:35-37 | The corrected link handler closes the panel on every in-page click, whether or not the lookup succeeds. It agrees with the script whenever the lookup succeeds, and it keeps `aria-expanded` equal to the open state. |
| Nav.RunKeepsMirrored | script.js:22-40 | With the corrected link handler, once `aria-expanded` mirrors the panel, any sequence of toggle and in-page link clicks keeps it mirrored. |
| Nav.RunOpenParity | script.js:22-40 | With either link handler, after any sequence of events, the panel is open exactly when the toggles since the last closing link click are odd in number. Under the handler as written, a click whose lookup throws does not close. With no closing click, the toggle parity is counted from the initial state. |

## Findings

| source | as written | input that shows it | evidently intended | confidence | as-written member | corrected member |
|---|---|---|---|---|---|---|
| script.js:37 | An in-page link click removes `open` from the panel but never updates the toggle's `aria-expanded`. | Click the toggle (panel open, `aria-expanded="true"`), then click a link to `#about`. The panel is closed but the button still reports expanded. | Closing the panel also sets `aria-expanded` to `"false"`, so assistive technology reports the panel's real state, as the toggle handler does. | medium, not executed | Nav.LinkClickLeavesAttributeStale | Nav.LinkClickCorrected |
| script.js:35-37 | The target is looked up with `document.querySelector(href)` before the panel is closed. For an `href` that is not a valid selector the lookup throws, and the close on line 37 never runs. | Open the panel, then click a link to `#` (or to `#2024`). The navigation is cancelled, but the panel stays open. | Every in-page link click closes the panel, whether or not a target is found. | high, not executed | Nav.LinkClickWithBadSelectorKeepsPanelOpen | Nav.LinkClickCorrected |

`Nav.LinkClick` is the handler as written, and `Nav.LinkClickCorrected` fixes
both rows. The event runs (`Nav.Run`) take either handler. `Nav.RunOpenParity`
holds for both, and `Nav.RunKeepsMirrored` holds for the corrected one.

## Left out

- Active-link highlighting (script.js:43-47). It compares browser-normalised URLs in an ad hoc way and states no contract.
- Footer-year stamping (script.js:19). It reads the clock.
- Smooth scrolling (script.js:35-36). `scrollIntoView` is a DOM effect and is not modelled. Which `href` values are valid selectors is not modelled either. Whether the lookup throws is an input, and only its effect on the close is modelled.
- The `window.mysite` debug helper (script.js:127-133). It is a console aid. Its `simulateReveal` adds `revealed` on timers without unobserving.
- `fetch`, the JSON encoding of the payload and the parsing of the reply body are foreign calls. The reply is an input. A `null` body is `JsonNull`, and any other body is its `error` member. That member is `None` for an unreadable body, and also for a falsy non-string `error` (`null`, `false`, `0`), which shows the fallback text just as a missing one does. `console.error` is omitted.
- Timing. The 700 ms delay before the simulated thanks and reset is not modelled, so a second submit inside that window is not either. Nor is any overlap of two submissions in flight, which the script does not guard against.
- Absent elements. The model assumes the panel, the toggle button, the form, the form's `name`, `email` and `message` controls, `formSuccess` and each field's error element exist. The toggle handler is attached only when both the panel and the button exist (script.js:22). The in-page link handler is always attached (script.js:30-40). Without a panel, a link click only cancels navigation and looks up the target (script.js:37). No submit handler is attached without the form. Without one of the three controls, reading its value (script.js:69-71) throws. `showError` skips a missing error element, and `clearErrors` skips a missing `formSuccess`. The submit handler itself writes `formSuccess` without a guard (script.js:81, 84, 91, 103, 107, 110). Without that element, a passing submission throws. On the simulated path it throws at line 81, outside any `try`. On the fetch path it throws at line 91 into the `catch`, whose own write at line 110 throws again.
- ContactForm.RejectionText: the server's `error` is a string or absent. A truthy non-string `error` (a number, an object), which JavaScript would convert to text, is not modelled.
- Character details. JavaScript lengths count UTF-16 code units. The model counts Unicode scalar values, which differs only for characters outside the Basic Multilingual Plane.
- The 12% intersection threshold is viewport geometry. `isIntersecting` is an input.
