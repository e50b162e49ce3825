# DOPE waitlist signup — a Dafny model

This project models the logic of a landing site's waitlist signup, in Dafny,
and proves properties of that model. The site collects a name, an optional
email and an Indian mobile number, sends a one-time code to the phone, checks
it, and adds a deduplicated entry to a hosted waitlist table. Six pieces are
modelled:

- `PhoneInput` (`phone_input.dfy`): the phone box. It covers the keystroke
  normaliser that forces a `+91` prefix and caps the value at ten more
  characters. It covers the display effect that groups the digits as
  `+91 XXXXX YYYYY` and rewrites values that lack the prefix. It also covers
  the validity indicator and the focus and blur handlers.
- `WaitlistWizard` (`waitlist_wizard.dfy`): the three-step wizard
  (InitialInfo → VerifyPhone → Success). It models the wizard's own phone
  check, the handlers for sending, verifying and resending a code, the
  countdown, closing and Back, and an event dispatcher. The proved invariant is
  that the success step always means the phone is on the waitlist.
- `WaitlistAction` (`waitlist_action.dfy`): the server action. It runs schema
  validation, then the verified gate, the duplicate-phone check, the
  duplicate-email check, and finally the insert, against a table modelled as a
  sequence of rows.
- `SubscribeAction` (`subscribe_action.dfy`): the older validator, which
  accepts only forms with an email.
- `OtpStore` (`otp_store.dfy`): the send and verify routes over the
  `otp_codes` table.
- `ImageMiddleware` (`middleware.dfy`): the redirect decision for image
  paths.

Shared pieces:

- `Text` (`text.dfy`) holds the JavaScript string operations the sources use.
- `Schema` (`schema.dfy`) holds the field rules both actions share.
- `Common` (`common.dfy`) holds `Option`, the action result, and the abstract
  email rule.

External services and sources of nondeterminism become parameters:

- The phone-auth provider's answers are `SendOutcome` and `ConfirmOutcome`.
- The database's behaviour on a call is `Db`, or `insertOk`, `queryOk` and
  `deleteOk`.
- The clock is `now`, in milliseconds.
- `Math.random()` is a `Draw` below 900000.
- The email syntax check is an `EmailRule`: any predicate that rejects the empty
  string.

The waitlist insert writes no `verified` column; only the gate checks the
flag. The server-side schema asks only for a phone of at least 7 characters;
the `+91` plus ten digits format is checked in the browser alone.

The action's duplicate checks read only the `data` of a `.single()` lookup.
That lookup yields a row only when exactly one row matches, and yields none on
any error, so the check fails open. When a lookup errors, a listed phone is
inserted again. Once a phone is listed twice, its lookup keeps failing and
nothing refuses it any more. Phones therefore stay unique only while the
lookups answer, and the model proves it in that form.

## Model

| member | source | states |
|---|---|---|
| `PhoneInput.HandleChange` | components/phone-input.tsx:97-127 | The output always starts with `+91`, has at most 13 characters, and holds only digits and '+'. Input shorter than 3 characters gives exactly `+91`. A cleaned input that already starts with `+91` is only cut to 13 characters. |
| `PhoneInput.HandleChangeIdempotent` | components/phone-input.tsx:107-124 | Normalising an already normalised value changes nothing. |
| `PhoneInput.TypedDigitsGetPrefix` | components/phone-input.tsx:101-120 | Input of at least 3 characters with no '+' becomes `+91` followed by its first ten digits. |
| `PhoneInput.RenderValue` | components/phone-input.tsx:27-79 | A value with the prefix, or an empty value, never triggers `onChange`. The empty value shows nothing. Every other value is rewritten to `+91` plus the first ten local digits, with a leading `91` dropped when more digits follow. That rewrite always differs from the value, so `onChange` always fires for it. |
| `PhoneInput.RenderPrefixed` | components/phone-input.tsx:29-46 | `+91`+d with no white space in d shows as: `+91` when d is empty; `+91 `+d when d has at most 5 characters; otherwise `+91 `+d[..5]+` `+d[5..]. Removing the spaces from the display gives the value back. |
| `PhoneInput.RewriteIsStable` | components/phone-input.tsx:49-73 | The rewritten value shows the same display as the original and triggers no further `onChange`. |
| `PhoneInput.KeystrokeValidity` | components/phone-input.tsx:82-95 | A keystroke result is valid exactly when it is `+91` alone or has ten digits after the prefix. |
| `PhoneInput.TenTypedDigitsAreValid` | components/phone-input.tsx:82-95 | Typing ten or more digits without '+' gives `+91` and the first ten digits, which is valid. |
| `PhoneInput.Focus` | components/phone-input.tsx:129-135 | Focus emits exactly when the value is empty, and it emits exactly `+91`. That value is a fixed point of the keystroke normaliser and passes the indicator. |
| `PhoneInput.Blur` | components/phone-input.tsx:137-144 | Blur emits `""` exactly when the value is `+91`, and the box then shows nothing. |
| `PhoneInput.FocusBlurRoundTrip` | components/phone-input.tsx:129-144 | Focus then blur on an empty box restores it. Blur then focus on `+91` restores it. |
| `WaitlistWizard.ValidatePhone` | components/waitlist-section.tsx:63-69 | Returns true exactly when the phone, with white space removed, is `+91`, then a digit 1-9, then nine digits. It is false for `""`, so the explicit empty-string test adds nothing. |
| `WaitlistWizard.WizardValidImpliesInputValid` | components/waitlist-section.tsx:63-69 | A number the wizard accepts, written with its prefix, also passes the phone box's indicator. |
| `WaitlistWizard.LeadingZeroOnlyInputAccepts` | components/waitlist-section.tsx:67 | `+910` followed by nine digits passes the indicator but is refused by the wizard. |
| `WaitlistWizard.BareDigitsOnlyInputAccepts` | components/waitlist-section.tsx:67 | Ten bare digits pass the indicator but are refused by the wizard. |
| `WaitlistWizard.ValidationIgnoresGrouping` | components/waitlist-section.tsx:68 | The wizard gives the same verdict for the grouped display as for the value. |
| `WaitlistWizard.TypedMobileNumberAccepted` | components/waitlist-section.tsx:51-69 | Typing input of at least 3 characters, with no '+' and at least ten digits the first of which is 1-9, gives a phone the wizard accepts. |
| `WaitlistWizard.SendOtp` | components/waitlist-section.tsx:186-217 | Changes nothing unless name and phone are non-empty, no handler is running, a verifier exists and the phone is valid. On success: step VerifyPhone, the confirmation is stored, the timer is 30, and the "sent" message is shown. On failure: the step is unchanged, the error flag is set, the verifier is cleared, and a message is shown. The form is kept and the handler ends not submitting. |
| `WaitlistWizard.SubmittedEntry` | components/waitlist-section.tsx:232-237 | The submitted entry has `verified` true, a phone with no white space and the same digits, and the form's name and email. |
| `WaitlistWizard.VerifyOtp` | components/waitlist-section.tsx:219-252 | Changes nothing unless there is a code, no handler is running, and a confirmation exists. The step becomes Success exactly when the code is confirmed and the action reports success. A refused code leaves the table unchanged and sets the error flag. The table gains at most the submitted row. Unique phones stay unique when the database lookups answer. |
| `WaitlistWizard.ResendOtp` | components/waitlist-section.tsx:254-283 | Refused while the timer is above 0, while a handler runs, without a verifier, or with an invalid phone. On success it stores the new confirmation and restarts the 30-second timer. On failure it sets the error flag and clears the verifier. It never changes the step or the form. |
| `WaitlistWizard.CountdownStopsAtZero` | components/waitlist-section.tsx:139-147 | After n ticks the timer is max(0, t-n), and nothing else has changed. |
| `WaitlistWizard.CooldownLastsThirtySeconds` | components/waitlist-section.tsx:199-203 | After a successful send, a resend within 29 ticks does nothing. After 30 ticks the timer is 0 and resending depends only on the verifier and the phone. |
| `WaitlistWizard.Close` | components/waitlist-section.tsx:174-184 | Closing shuts the modal, returns to InitialInfo, and clears name, email, phone, code, message, error, confirmation and phone validity. It keeps the timer and the verifier. |
| `WaitlistWizard.CloseRestoresInitial` | components/waitlist-section.tsx:174-184 | Closing gives the first-render state apart from the timer and the verifier. Closing twice is the same as closing once. |
| `WaitlistWizard.Back` | components/waitlist-section.tsx:457-458 | Back sets the step to InitialInfo and changes nothing else. |
| `WaitlistWizard.EditPhone` | components/waitlist-section.tsx:51-60 | Stores the new phone and sets its validity to the wizard's verdict, keeping name and email. |
| `WaitlistWizard.DispatchKeepsInvariant` | components/waitlist-section.tsx:174-283 | Every event keeps the invariant. No handler is left running, the timer stays at most 30, and the validity flag matches the phone. VerifyPhone has a confirmation and a valid phone. Success means the modal is open and the whitespace-free phone is in the table. |
| `WaitlistWizard.RunKeepsInvariant` | components/waitlist-section.tsx:174-283 | The invariant holds after any sequence of events. |
| `WaitlistWizard.SuccessMeansListed` | components/waitlist-section.tsx:229-240 | From the first render, the success screen is reached only when the whitespace-free phone is a valid Indian mobile number on the waitlist. When every submission's lookups answer, a table of unique phones stays unique. Both facts rest on handlers running without interleaving: in the browser, a close during an in-flight verify still reaches the success step, with an empty form and a closed modal. |
| `WaitlistWizard.RunKeepsUniquePhones` | components/waitlist-section.tsx:229-237 | A run of events in which no code submission meets a lookup error keeps the table's phones unique. |
| `WaitlistAction.FirstIssue` | app/actions/waitlist.ts:13-18 | The first schema issue follows field order: a name shorter than 2, then an email that is present, non-empty and invalid, then a phone shorter than 7. Each has its message. |
| `WaitlistAction.Subscribe` | app/actions/waitlist.ts:28-100 | Success exactly when four things hold: the schema passes, `verified` is true, the database does not throw or reject the insert, and neither the phone lookup nor (for a given email) the email lookup yields a row. Success appends exactly one row (name, email or null, phone, time) and replies with the joined message. Every failure leaves the table unchanged. A schema issue, missing verification, an exception, a found phone (ahead of a found email), a found email and an insert error each give their message. With unique phones and answering lookups, a listed phone is refused, and unique phones and unique emails stay unique. |
| `WaitlistAction.PhoneFoundIsListed` | app/actions/waitlist.ts:52-54 | With unique phones and an answering lookup, `.single()` finds a row exactly when the phone is listed. |
| `WaitlistAction.EmailFoundIsListed` | app/actions/waitlist.ts:63-65 | With unique emails and an answering lookup, `.single()` finds a row exactly when the email is listed. |
| `WaitlistAction.LookupErrorAdmitsDuplicate` | app/actions/waitlist.ts:52-79 | When the lookups answer with an error, a verified, schema-valid entry whose phone is listed is inserted, and the table then holds that phone twice. |
| `WaitlistAction.DuplicatedPhoneIsNeverFound` | app/actions/waitlist.ts:52-54 | A phone listed twice is never found by the lookup, whatever the database does. |
| `WaitlistAction.ReplayKeepsUnique` | app/actions/waitlist.ts:52-79 | Under sequential calls whose lookups answer, unique phones stay unique and unique emails stay unique. |
| `WaitlistAction.ReplayOnlyAppends` | app/actions/waitlist.ts:74-79 | Calls only append rows. Earlier rows are never changed or removed. |
| `WaitlistAction.AddedRowsWereVerified` | app/actions/waitlist.ts:44-49 | Every added row came from a call whose entry had `verified` true and whose name and phone passed the schema. |
| `WaitlistAction.RegisteredPhoneStaysRefused` | app/actions/waitlist.ts:52-59 | Once a phone is on a list of unique phones, every later call with that phone is refused, as long as the lookups answer. |
| `SubscribeAction.Subscribe` | app/actions/subscribe.ts:17-47 | Success exactly when the name has at least 2 characters, the email is present and valid, and the phone has at least 7. Success carries the thank-you message. A short name fails with "Please enter your name". A missing name fails with the type message. An empty email always fails. |
| `SubscribeAction.StricterThanWaitlistSchema` | app/actions/subscribe.ts:6-10 | A form the legacy rules accept passes the waitlist action's schema. |
| `SubscribeAction.EmptyEmailOnlyLegacyRefuses` | app/actions/subscribe.ts:6-10 | For every name of at least 2 and phone of at least 7 characters, an empty email is refused here but accepted by the waitlist action's schema. |
| `OtpStore.Code` | app/api/otp/send/route.ts:19 | The code is a six-digit decimal string whose value is 100000 plus the draw, so it lies in 100000-999999. |
| `OtpStore.Send` | app/api/otp/send/route.ts:10-41 | A body that fails to parse gives 500. A missing or empty phone gives 400 and stores nothing. A store error gives 500 "Failed to send verification code". Success appends exactly one record (fresh id, phone, code, now + 600000, now) and keeps every earlier record. Well-formed stores stay well-formed. |
| `OtpStore.Newest` | app/api/otp/verify/route.ts:22-30 | Picks a record with matching phone and code whose expiry is after now, with the latest `created_at`. Returns none exactly when no such record exists. |
| `OtpStore.DeleteId` | app/api/otp/verify/route.ts:37 | Afterwards no record has the id, every record with another id is still there, and with no record of that id the table is unchanged. |
| `OtpStore.DeleteOnlyChosen` | app/api/otp/verify/route.ts:37 | With unique ids, deleting the chosen record's id removes exactly that record. |
| `OtpStore.Verify` | app/api/otp/verify/route.ts:10-44 | A body that fails to parse gives 500. A missing phone or code gives 400 with the "required" message. Success exactly when the query works and an unexpired matching record exists: the reply is 200, and the newest such record is deleted when the delete takes effect, with nothing else changed. Any other request with both fields gets 400 "Invalid or expired verification code" and leaves the store unchanged. Well-formedness is preserved. |
| `OtpStore.ExpiredNeverAccepted` | app/api/otp/verify/route.ts:22-27 | The record a successful verify accepts was created less than ten minutes before now. |
| `OtpStore.SentCodeVerifies` | app/api/otp/verify/route.ts:22-37 | A code just sent verifies within ten minutes. The verify removes exactly the record that was sent. |
| `OtpStore.ConsumedCodeNotReusable` | app/api/otp/verify/route.ts:22-37 | With a single record for the phone and code, a second verify after a successful first one fails at any time. |
| `ImageMiddleware.Route` | middleware.ts:5-42 | A path with no image extension, or outside `/images/`, passes through. A redirect happens exactly when the path starts with `/images/` and its last segment is `logo.png`, `mascot.png` or `background.png`. The redirect goes to that name's fixed URL. |
| `ImageMiddleware.FallbackNameIsImage` | middleware.ts:10-16 | A path whose last segment is a fallback name passes the extension test. |
| `ImageMiddleware.NestedPathsRedirect` | middleware.ts:21-36 | `/images/<dirs>/<name>` redirects for each fallback name, at any depth. |
| `ImageMiddleware.RouteAsWritten` | middleware.ts:25-36 | The lookup as written throws exactly for image paths under `/images/` whose last segment is a name inherited from `Object.prototype`. |
| `ImageMiddleware.AsWrittenAgreesOffInheritedNames` | middleware.ts:25-36 | Apart from inherited names, the code as written and `Route` decide the same. |
| `ImageMiddleware.InheritedNameThrows` | middleware.ts:34-36 | `/images/logo.png/toString` throws as written but passes through under `Route`. |

## Findings

| source | as written | input that shows it | evidently intended | confidence | as-written member | corrected member |
|---|---|---|---|---|---|---|
| middleware.ts:25-36 | `fallbackMap` is a plain object literal. Names inherited from `Object.prototype` (`toString`, `constructor`, `__proto__`, …) look up to a truthy function or object. That value goes to `NextResponse.redirect`, which rejects a non-URL by throwing. | `/images/logo.png/toString` | Only the three listed file names redirect. Every other request passes through. | not executed; the lookup and the redirect's URL check are library behaviour described from their documentation | `ImageMiddleware.InheritedNameThrows` | `ImageMiddleware.Route` |

## Left out

- The phone-auth provider (reCAPTCHA verifier, sending and confirming a code) is an external service. Each call is an opaque outcome. The effect that creates and clears the verifier is reduced to a `VerifierCreated` event, and its cleanup is not modelled.
- Async handlers run to completion with no other event in between. So `submitting` is false whenever a handler starts. Events that arrive while a request is in flight, such as a close during a send, are not modelled.
- The handler's `catch` for a server-action call whose network promise rejects is not modelled. The action's own `catch` is modelled as `DbThrows`, placed before the first database lookup.
- The Supabase network calls are replaced by in-memory tables. A `.single()` lookup yields a row exactly when one row matches and the lookup does not error.
- `WaitlistAction.Subscribe` gives one database behaviour per call: both lookups error together, and the insert then succeeds. Mixed cases are not modelled: one lookup failing alone, or a failed lookup followed by a rejected insert.
- The check-then-insert race between concurrent submissions is concurrency, and only sequential calls are modelled.
- The zod email regex is the abstract `EmailRule`. zod's messages follow its documented behaviour: issues come in key order; an invalid non-empty email in the union reports the email message; `null` reports "Expected string, received null".
- String lengths count Unicode scalar values, while JavaScript counts UTF-16 code units. They differ only for characters outside the Basic Multilingual Plane.
- `Math.random` is a floating-point source and is replaced by an integer draw below 900000. The floating-point rounding of `100000 + r * 900000` is not modelled.
- `Date.now` and ISO timestamps are integer milliseconds. The table's `created_at` default is assumed to read the same clock as `now`.
- `OtpStore.Newest`: records that tie on `created_at` are resolved toward the one stored last. The database promises no order among ties.
- `OtpStore.SentCodeVerifies` assumes no earlier record carries a `created_at` later than the send. With a clock running backwards, an older record with the same code could be chosen instead.
- JSON bodies whose `phone` or `code` is not a string (a number, say) are not modelled. Parsed fields are strings or absent.
- `FormData.get` returning a `File` is not modelled.
- In the verify route, a thrown database exception ("Internal server error") is modelled only for a body that fails to parse. A query error is the `queryOk` parameter, which the route reports as 400. A failed delete is the `deleteOk` parameter: the route still reports success. The not-reusable property therefore assumes the delete took effect.
- The sent code is only logged, never delivered, and logging is not modelled.
- In `handleChange`, the display update of the short-input branch is not returned. The display effect recomputes it from the emitted `+91`.
- The middleware `matcher` config, the image-path fallback effects, preload and debug code, and the image-check route are left out. They are I/O or framework configuration.
- Presentation components, layout, fonts, animations, scroll locking and the escape-key listener are left out. The listener calls the same `Close` that is modelled.
