# postit: a verified model of its protocols, reconcilers and codecs

Postit publishes media to social platforms. This project models the parts of it where the order of
steps, the interruption of a run or the exact spelling of a text decides whether the result is right,
and proves what those parts promise. `dafny verify dfyconfig.toml` checks all of it.

| file | part of postit |
|---|---|
| `Upload.dfy` | the chunked upload driver and chains of interrupted uploads |
| `Poll.dfy` | the timed polling loop |
| `MailProvider.dfy` | the reconciler that makes postit's webhook the active mail provider |
| `Dotenv.dfy` | the editor of the dotenv file that reconciler keeps its key in |
| `Branding.dfy`, `Logo.dfy` | the label policy reconciler and the dark copy of the logo |
| `MessageTexts.dfy` | the identity message text reconciler |
| `Evaluator.dfy` | the template expression evaluator |
| `Base64Url.dfy`, `EmailLinks.dfy` | signed email links |
| `AuthFetch.dfy` | authenticated requests that share one token renewal |
| `SessionRestore.dfy` | the silent session restore of a browser tab |
| `ClientIp.dfy`, `Preconditions.dfy`, `AuditDto.dfy` | proxy hops, `If-Match`, audit references |
| `Texts.dfy`, `Wrappers.dfy` | trimming, splitting and joining; `Option`, `Result` and bytes |

Most files have the same build. A function says what an operation does in terms of its whole input (the
bytes of a source, the state of a server, the steps of a protocol). The operation itself is a method with
the loops, the early returns and the fields of the original, and its contract equates it with that function.
Lemmas then say what the function means: a characterisation that mentions no algorithm, an invariant over
every run, a round trip, or the exact condition under which the operation meets its promise.

## The world around the code

* Answers from outside are parameters, so every result holds for all of them: whether a chunk is accepted
  (`answers`), what a polled step returns and how long it takes (`Env`), which events arrive in which order
  (`Event`), after how many calls a reconciler stops (`budget`), which served files can be read (`readable`).
* A stop of a reconciler is a stop after any mutating server call or any write of the vault file: a call that
  fails without effect, a call that succeeds and loses its answer, and a crash are all stops.
* The identity server: listed mail providers have distinct ids; a created one is listed last and is inactive;
  activating one deactivates every other; reading a policy or a text leaves out empty texts and false flags;
  each upload gets a new address; signing keys are not empty and hold no quotes or line breaks.
* HMAC-SHA256, the URL library, UUID parsing and versions, IP address parsing, and number parsing and
  coercion in JavaScript are parameters. Nothing is assumed of them beyond the length of a digest and, for
  a click destination, that it is what its own text parses to.
* A redirect to the identity provider saves its state in the tab's session storage before it leaves the page
  (`stateStore` in web/src/auth/userManager.ts:20), so it is refused where that cannot be written; a refused
  redirect ends the loading at once. The library that does this is not part of this model.
* Texts are sequences of characters and file contents are texts. Offsets in `Upload` are 64-bit and cannot
  overflow for a source below 2^64 bytes, which is required; durations saturate as Rust's do.

## Where the code and its documentation disagree

The model follows the code, and each difference has a lemma with the exact condition.

* postit's README says that a reload restores the session at most once per tab. That holds exactly when the tab's
  storage refuses reads, writes or removals (`OncePerTabIff`). Where storage works, a sign-in makes a second
  silent redirect possible (`TwiceAroundASignIn`); what always holds is one silent redirect more than there
  are sign-ins (`RedirectsBounded`).
* The dotenv editor says that other lines stay. A text whose last line ends in a bare carriage return, in a
  file without CRLF, is changed: that line loses its carriage return, and a second identical edit rewrites
  every line ending (`LinesKeptIffNoStray`, `RepeatableIffNoStray`, and `StrayExample` for such a text). What
  every key reads as is still kept (`ReadingsAfterEdit`).
* The bootstrap says that every step is idempotent and may be re-run. The signing key in the vault and the one
  the server signs with end up the same, wherever runs are interrupted, exactly when the vault starts without
  a key or with the existing provider's key (`AgreesIffVaultTrusted`).
* The evaluator reads a quoted string as text only when no equality operator occurs in it
  (`QuotedIffNoSplit`, and `QuotedOperatorIsNotText` for such a string). A chain of comparisons without
  parentheses nests to the right (`ChainsNestRight`), in JavaScript to the left: `true===null===false` is
  false to the evaluator and true in JavaScript (`NestingsDiffer`). Operators are read as in JavaScript
  whatever stands around them exactly when there is at most one (`ReadAsInJavaScriptIff`); chains of booleans
  of any length are too (`ChainsAsInJavaScript`).
* The polling loop says that it ends at the last step that fits. It does for a positive interval and a timeout
  below the longest duration, and for no other pair of durations does it always end (`EndsIff`). A zero
  interval fails only in a world whose clock stands still: where the clock keeps advancing, any interval ends
  exactly with a timeout below the longest duration (`ZeroIntervalEnds`, `EndsWhenClockAdvancesIff`).

## Model

| member | source | states |
|---|---|---|
| Upload.UploadChunks | backend/crates/agent-kit/src/upload.rs:32-99 | For every way of cutting a source into pieces, empty ones included, the result and the accepted chunks are those of `Run`, which knows only the bytes. A stream with a failed item never succeeds and no chunk is marked last; success has read every item, returns the sum of their lengths and sent every byte from the offset on, in place; each chunk sent was accepted, and each error has its cause. Less than two chunks are held, no 64-bit counter overflows and the skip is shorter than the piece |
| Upload.Drain | backend/crates/agent-kit/src/upload.rs:75-82 | The inner loop leaves less than a chunk in the buffer and one in look-ahead, or stops exactly where the whole run stops |
| Upload.Finish | backend/crates/agent-kit/src/upload.rs:92-101 | What is left after the stream goes out with the final chunk, and only that one, marked last |
| Upload.Emit | backend/crates/agent-kit/src/upload.rs:104-122 | A cancel request is seen before the send; a chunk counts as sent only when `send` accepts it |
| Upload.RefusedUnsent | backend/crates/agent-kit/src/upload.rs:43-48 | Each validation error ends a run exactly under its condition (a chunk size of zero, an empty source, an offset at or past the end), and then no chunk was sent |
| Upload.IdealIsTheOnlyCut | backend/crates/agent-kit/src/upload.rs:11-18 | The chunks of a complete upload join to the source from the resume offset, are contiguous, all of chunk size but the last, which is 1 to chunk size long and alone marked last; and they are the only chunks that do |
| Upload.RunSendsThePlan | backend/crates/agent-kit/src/upload.rs:51-99 | A run succeeds with the whole plan and the source's length, or fails having sent a proper first part of it with no chunk marked last; each error is the one its cause calls for and none is a validation error |
| Upload.ChainIsOneUpload | backend/crates/agent-kit/src/upload.rs:20-31 | Any chain of interrupted runs, each resumed at the end of the last accepted chunk, sends the chunks of one uninterrupted upload: a proper first part until a run succeeds, then all of them |
| Poll.PollUntil | backend/crates/agent-kit/src/poll.rs:27-50 | For any durations and any steps with which it ends, the loop stops at the first step that answers, fails, is cancelled or leaves no room for another interval, in that priority; with a timeout below the longest duration every sleep it starts ends by the timeout |
| Poll.ClockSums | backend/crates/agent-kit/src/poll.rs:37-48 | When a step has answered, the time is the sum of all steps, of one interval for each sleep and of their lags |
| Poll.AtMost | backend/crates/agent-kit/src/poll.rs:45-48 | However long steps and sleeps take, it goes on only after the first `timeout / interval` steps |
| Poll.StepCount | backend/crates/agent-kit/src/poll.rs:18-24 | At least one step and at most `timeout / interval + 1`; exactly that many for instant steps that never answer, ending at the last whole interval |
| Poll.EndsIff | backend/crates/agent-kit/src/poll.rs:37-50 | The loop ends for every behaviour of the steps and of the clock, one that stands still included, exactly when the interval is positive and the timeout below the longest duration |
| Poll.ZeroIntervalEnds | backend/crates/agent-kit/src/poll.rs:37-50 | With an interval of zero the loop ends wherever the clock passes the timeout, and among steps that never answer only there |
| Poll.EndsWhenClockAdvancesIff | backend/crates/agent-kit/src/poll.rs:37-50 | For any interval, zero included, the loop ends in every world whose clock keeps advancing exactly when the timeout is below the longest duration |
| Dotenv.UpsertEnvValue | backend/xtask/src/zitadel_bootstrap.rs:639-666 | The loop with its `replaced` flag gives the text whose first matching line is replaced, or with a line added, and fails on a value that cannot be quoted or a missing file |
| Dotenv.EnvHasValue | backend/xtask/src/zitadel_bootstrap.rs:631-636 | True exactly when some line sets the key to a non-empty value |
| Dotenv.SetsKeyIff | backend/xtask/src/zitadel_bootstrap.rs:622-628 | A line sets a key exactly when it is an optional byte order mark, an optional `export` with white space, the key, an equals sign and anything |
| Dotenv.EditSpelled | backend/xtask/src/zitadel_bootstrap.rs:644-666 | The edited text is the old lines with the first that sets the key replaced by the quoted value, or with that line added, all ended by CRLF if the text held one |
| Dotenv.LinesOfTerminated | backend/xtask/src/zitadel_bootstrap.rs:650-666 | Lines joined with an ending and split again are the same lines, except that a lone line feed takes a carriage return from the line before it |
| Dotenv.LinesKeptIffNoStray | backend/xtask/src/zitadel_bootstrap.rs:638-666 | The edited text has exactly the old lines but the edited one, if and only if no stray carriage return ends the text |
| Dotenv.RepeatableIffNoStray | backend/xtask/src/zitadel_bootstrap.rs:638-666 | A second identical edit returns the same text byte for byte under exactly the same condition |
| Dotenv.StrayExample | backend/xtask/src/zitadel_bootstrap.rs:644-666 | Of `A=1` and a bare carriage return, a first edit of `B` turns the return into part of a line ending, and a second identical one rewrites the other ending too |
| Dotenv.MarkedAndExportedReads | backend/xtask/src/zitadel_bootstrap.rs:622-628 | A byte order mark, an `export`, and white space around the value are skipped when a key is read |
| Dotenv.ReadsBackIff | backend/xtask/src/zitadel_bootstrap.rs:623-628 | A stored value reads back unchanged exactly when it neither starts nor ends with a double quote |
| Dotenv.ReadingsAfterEdit | backend/xtask/src/zitadel_bootstrap.rs:623-666 | For any text, after an edit the key first reads as the new value and every other key reads exactly as before |
| Dotenv.HasValueReadings | backend/xtask/src/zitadel_bootstrap.rs:630-636 | A key is set exactly when one of its readings is not empty |
| MailProvider.Bootstrap.EnsureIdentityMailProvider | backend/xtask/src/zitadel_bootstrap.rs:736-779 | The executor's loop over the plan, stopped after any number of calls and writes, leaves the state and the verdict of `Reconcile` |
| MailProvider.Bootstrap.PutProvider | backend/xtask/src/zitadel_bootstrap.rs:690-708 | Only the provider with the id changes; a rotation issues a new key and returns it |
| MailProvider.Bootstrap.StoreSigningKey | backend/xtask/src/zitadel_bootstrap.rs:723-733 | Stores a usable key with the dotenv editor; an empty or unquotable one fails and changes nothing |
| MailProvider.OperatorIsLeftAlone | backend/xtask/src/zitadel_bootstrap.rs:571-579 | With an active provider that has neither of postit's two descriptions no run changes anything, in the server or the vault |
| MailProvider.HealthyNeedsNothing | backend/xtask/src/zitadel_bootstrap.rs:589-599 | When our provider is active at the wanted endpoint and the vault holds a key, the plan is empty, so a healthy server needs no call |
| MailProvider.PlanIsWhatIsMissing | backend/xtask/src/zitadel_bootstrap.rs:566-600 | Creation, rotation, a new endpoint and activation are each planned exactly when missing, at most two steps, activation last |
| MailProvider.OneRun | backend/xtask/src/zitadel_bootstrap.rs:566-600 | One run, stopped anywhere, adds at most our provider and only when missing, changes no other provider except to deactivate it, and heals the server when it completes, as it does within three calls and writes |
| MailProvider.Converges | backend/xtask/src/zitadel_bootstrap.rs:735-779 | From any server whose active providers are postit's webhook or SMTP fallback, and after any series of interrupted runs, with any endpoints, a run that completes leaves the webhook active at the wanted endpoint, a key in the vault and an empty next plan; the whole series adds at most one provider |
| MailProvider.ActiveIffNoOperators | backend/xtask/src/zitadel_bootstrap.rs:571-600 | A run of three calls and writes ends with the webhook active at the endpoint exactly when no provider with another description than postit's two was active |
| MailProvider.ActivatedOnlyWithKey | backend/xtask/src/zitadel_bootstrap.rs:735-779 | Wherever runs are stopped, the webhook is activated only once the vault holds a key, and the vault never loses its key |
| MailProvider.AgreesIffVaultTrusted | backend/xtask/src/zitadel_bootstrap.rs:722-779 | Every such series ends with the vault's key equal to our provider's exactly when the vault began without a key or with our existing provider's key |
| Logo.DarkLogo | backend/xtask/src/zitadel_bootstrap.rs:966-985 | Refuses a logo without the ink color; otherwise every match in any letter case is replaced, every other character kept, and the length too |
| Logo.MatchesSpelled | backend/xtask/src/zitadel_bootstrap.rs:966-970 | A match is a hash sign and `1d1a1c` with each letter in either case |
| Logo.MatchesApart | backend/xtask/src/zitadel_bootstrap.rs:975-978 | Matches never overlap, so the leftmost non-overlapping ones are all of them |
| Logo.DarkHasNoInk | backend/xtask/src/zitadel_bootstrap.rs:966-970 | The dark logo holds no match in any letter case, so a second application is refused |
| Branding.Executor.EnsureBranding | backend/xtask/src/zitadel_bootstrap.rs:1022-1069 | Colors, uploads and activation, stopped after any number of mutating calls, leave the state and the verdict of `Reconcile` |
| Branding.Executor.UploadAssets | backend/xtask/src/zitadel_bootstrap.rs:1044-1055 | The asset loop, judging each asset by the pending policy read before the first upload, uploads exactly those not served as wanted |
| Branding.RunBrands | backend/xtask/src/zitadel_bootstrap.rs:1017-1069 | From any server state, a run that completes leaves pending and active reading the same, every wanted text and flag and every wanted file in the active policy, a wanted false absent or false, and other fields untouched; a run stopped anywhere leaves the active policy either as it was or fully branded |
| Branding.NeverHalfBranded | backend/xtask/src/zitadel_bootstrap.rs:1017-1069 | Through any series of interrupted runs the active policy is the old one or has every wanted text, flag and file |
| Branding.BrandingConverges | backend/xtask/src/zitadel_bootstrap.rs:1017-1069 | After any interrupted runs a run that completes, as one allowed two calls more than there are assets does, leaves pending and active equal and fully branded, and a further run makes no call exactly when it can read every wanted file |
| Branding.FurtherRunIsSilent | backend/xtask/src/zitadel_bootstrap.rs:895-902 | Once branded, a run makes no mutating call exactly when every wanted file can be read |
| Branding.CallsAreNeeded | backend/xtask/src/zitadel_bootstrap.rs:1022-1069 | A completed run makes one call if a color differs, one for each asset not served as wanted, and one if the policies then differ |
| Branding.EmptyColorIsNeverCurrent | backend/xtask/src/zitadel_bootstrap.rs:893-902 | A wanted empty text would never read as current |
| Branding.LabelPolicyIsWellFormed | backend/xtask/src/zitadel_bootstrap.rs:877-891 | postit's colors and assets meet what convergence needs, and the dark logo's color is the policy's |
| MessageTexts.Executor.EnsureMessageTexts | backend/xtask/src/zitadel_bootstrap.rs:806-830 | The loop writes exactly the texts that differ and counts the others |
| MessageTexts.RequestsAreDistinct | backend/xtask/src/zitadel_messages.rs:98-110 | Each message has one request, at its own route and with its text; different messages of a language have different routes, so no write undoes another |
| MessageTexts.ExecReaches | backend/xtask/src/zitadel_messages.rs:112-122 | A run, stopped anywhere, keeps every text that was as wanted, touches no other route, and has all texts as wanted when it completes |
| MessageTexts.WritesWhatIsMissing | backend/xtask/src/zitadel_messages.rs:112-122 | A completed run writes exactly the texts that were not as wanted, field by field |
| MessageTexts.TextsConverge | backend/xtask/src/zitadel_bootstrap.rs:804-830 | After any interrupted runs a run that completes leaves every text as wanted and the next one writes nothing |
| Evaluator.Evaluate | docs/design/Home/support.js:47 | The recursive parser equals `Eval` and ends on every text: each call is on a strictly shorter one |
| Evaluator.WrapsLoop | docs/design/Home/support.js:47 | True exactly when the opening parenthesis closes only at the end of the text |
| Evaluator.SplitLoop | docs/design/Home/support.js:47 | The depth counter finds the first operator outside all brackets with an operand before it |
| Evaluator.CloseLoop | docs/design/Home/support.js:47 | The depth counter finds the bracket that closes the opening one |
| Evaluator.WalkLoop | docs/design/Home/support.js:47 | The walk over dots and brackets equals the recursive description of a path |
| Evaluator.EvalPrint | docs/design/Home/support.js:47 | For every expression tree, printed with comparisons in parentheses where they are operands, any other operand with or without them, and any whitespace around operators, the evaluator returns the tree's meaning |
| Evaluator.NamesSpelled | docs/design/Home/support.js:47 | A letter of either case, `_` or `$`, followed by those or digits, is looked up in the scope unless it is one of the four words |
| Evaluator.MembersSpelled | docs/design/Home/support.js:47 | A dot with a name or digits, or brackets with any expression, is a property of what the name stands for, and undefined of null or undefined |
| Evaluator.StraySpelled | docs/design/Home/support.js:47 | A name followed by anything else is undefined |
| Evaluator.NumbersSpelled | docs/design/Home/support.js:47 | A text that starts with none of a name, a quote, a parenthesis and an exclamation mark is its number if it is a numeral, and else undefined |
| Evaluator.WordsSpelled | docs/design/Home/support.js:47 | The four words, and blank text |
| Evaluator.NotSpelled | docs/design/Home/support.js:47 | An exclamation mark gives true exactly for undefined, null, false, empty text, zero and NaN |
| Evaluator.OperatorsSpelled | docs/design/Home/support.js:47 | What each of the four operators gives for values of every type |
| Evaluator.LeadingOperatorsSpelled | docs/design/Home/support.js:47 | An operator with nothing before it does not split the text |
| Evaluator.QuotesSpelled | docs/design/Home/support.js:47 | Quoted text without brackets and equals signs is its content, with either quote |
| Evaluator.OpenQuotesSpelled | docs/design/Home/support.js:47 | A quote not closed by its own kind is undefined |
| Evaluator.SpacesListed | docs/design/Home/support.js:47 | The 25 characters that trimming removes |
| Evaluator.WalkSteps | docs/design/Home/support.js:47 | Field, item and index steps of any length, with expressions of any depth as keys, are followed as the tree says |
| Evaluator.SplitsAtFirst | docs/design/Home/support.js:47 | The first operator outside all brackets is the root, whatever follows it, for every left side with balanced brackets, with or without parentheses |
| Evaluator.ChainsNestRight | docs/design/Home/support.js:47 | A chain of any number of comparisons without parentheses nests to the right |
| Evaluator.NestingsDiffer | docs/design/Home/support.js:47 | `true===null===false` evaluates to false where nesting to the left gives true |
| Evaluator.NestingsAgree | docs/design/Home/support.js:47 | Both nestings give the same for one operator and for booleans joined by any number of any operators |
| Evaluator.ChainsAsInJavaScript | docs/design/Home/support.js:47 | Such chains evaluate as if nested to the left |
| Evaluator.ReadAsInJavaScriptIff | docs/design/Home/support.js:47 | On every host and in every scope, chains with given operators evaluate as nested to the left for all operands exactly when there is at most one operator |
| Evaluator.QuotedIffNoSplit | docs/design/Home/support.js:47 | A quoted text evaluates to its content exactly when no operator is found in it |
| Evaluator.QuotedOperatorIsNotText | docs/design/Home/support.js:47 | A string literal with `==` in it is a concrete failure |
| Evaluator.EvalPadded | docs/design/Home/support.js:47 | Whitespace around an expression changes nothing |
| Base64Url.DecodeIffEncode | backend/crates/api/src/email_links.rs:107-112 | A text decodes to some bytes exactly when it is their encoding (sections 3.5 and 5 of RFC 4648) |
| Base64Url.AlphabetRuns | backend/crates/api/src/email_links.rs:97-101 | The 64 characters in their order (table 2 of RFC 4648) |
| Base64Url.SextetsAreDigits | backend/crates/api/src/email_links.rs:97-101 | A group of bytes and its sextets are the same number in two bases, with zero bits behind a short group |
| Base64Url.EncodeGroups | backend/crates/api/src/email_links.rs:97-101 | Groups of three bytes are encoded one after the other, each sextet as its character |
| EmailLinks.New | backend/crates/api/src/email_links.rs:76-91 | Accepts exactly the schemes http and https and returns a base whose path ends in a slash, with one added only if it had none, and without query and fragment |
| EmailLinks.OpenIffSeal | backend/crates/api/src/email_links.rs:103-118 | A token is accepted under a label with a payload exactly when it is the seal of that payload |
| EmailLinks.SealSpelled | backend/crates/api/src/email_links.rs:93-101 | A token is the payload and the first 16 bytes of the HMAC of label, zero byte and payload, in base64 |
| EmailLinks.MacInputInjective | backend/crates/api/src/email_links.rs:93-101 | Label and payload can be read back from what the MAC signs, for labels without NUL |
| EmailLinks.CrossLabel | backend/crates/api/src/email_links.rs:3-6 | A token sealed under one label is accepted under another exactly when the 16-byte tags of two different MAC inputs coincide |
| EmailLinks.LabelsAreSeparate | backend/crates/api/src/email_links.rs:21-24 | The three labels are the texts the code has, different and without NUL |
| EmailLinks.PayloadSpelled | backend/crates/api/src/email_links.rs:183-196 | The unsubscribe payload is owner, address hash, language and send, in 65 bytes |
| EmailLinks.UnsubscribeIff | backend/crates/api/src/email_links.rs:129-147 | An unsubscribe token verifies to some fields exactly when it seals them |
| EmailLinks.ClickIff | backend/crates/api/src/email_links.rs:151-162 | A click token verifies exactly when it seals a send and a non-empty text that parses to that web destination |
| EmailLinks.OpenPixelIff | backend/crates/api/src/email_links.rs:166-170 | An open token verifies to a send exactly when it seals it |
| EmailLinks.TokenIsLastSegment | backend/crates/api/src/email_links.rs:120-125 | For any base the token is the last segment of the URL's path after the base's own path, and holds only letters, digits, hyphens and underscores |
| EmailLinks.UrlsSpelled | backend/crates/api/src/email_links.rs:120-125 | The links are the base with `public/u/`, `public/t/c/` or `public/t/o/` and the token after its path |
| EmailLinks.UrlsRoundTrip | backend/crates/api/src/email_links.rs:183-212 | Each kind of URL gives back from its last segment exactly what it was built from, a click URL for a destination its own text parses to; a destination that is not on the web is left as it is |
| AuthFetch.Client.Renew | web/src/lib/singleFlight.ts:2-10 | A caller joins the renewal in flight or starts one |
| AuthFetch.Client.OnAnswer | web/src/api/authFetch.ts:23-31 | One step of a request: return, join a renewal, or sign out after a refused second send |
| AuthFetch.Client.OnResume | web/src/api/authFetch.ts:25-30 | One step of a request: sign out without a usable token, else send again with the renewed one |
| AuthFetch.Client.OnUserRead | web/src/auth/tokenSource.ts:18-26 | A renewal without a refresh token ends with no token |
| AuthFetch.Client.OnRenewed | web/src/auth/tokenSource.ts:27-33 | A renewal sets the token to its result |
| AuthFetch.StepKeeps | web/src/api/authFetch.ts:17-34 | Every step keeps: one renewal at most under way, each renewal asked for by a refused request, and every request sent once, or twice with the token of its own renewal, and signed out exactly when that gave no usable token or the second send was refused |
| AuthFetch.EveryRun | web/src/api/authFetch.ts:17-34 | That holds in every interleaving of any number of requests, and the result of a landed renewal never changes |
| AuthFetch.RenewalsNeverOverlap | web/src/lib/singleFlight.ts:1-10 | A renewal starts only after every earlier one has landed |
| AuthFetch.TokenIsDropped | web/src/auth/tokenSource.ts:18-40 | Signing out and a renewal without a token leave no token |
| AuthFetch.NoTokenUntilOneArrives | web/src/auth/tokenSource.ts:8-17 | A dropped token comes back only by a loaded user, a renewal that ends with a token, or the first load of a stored user; until then every new request is sent without one |
| AuthFetch.EveryRunIsTold | web/src/auth/tokenSource.ts:6-41 | After every run the token, the renewal each request joined and the result of each renewal are what functions of the events alone say |
| AuthFetch.SendsAreTold | web/src/api/authFetch.ts:21-31 | A request is first sent with the token that the events before it leave, and sent again only with the result of the renewal its refusal joined |
| SessionRestore.Adapter.RunRestore | web/src/auth/SessionProvider.tsx:37-60 | The first effect, with each of its storage accesses allowed or throwing, and the redirect refused where its state cannot be saved |
| SessionRestore.Adapter.SigninRedirect | web/src/auth/SessionProvider.tsx:55-59 | Leaves the page once its state is saved; otherwise the rejected call ends the loading |
| SessionRestore.Adapter.RunEffects | web/src/auth/SessionProvider.tsx:37-71 | The effects run in order, each when what it depends on has changed |
| SessionRestore.Adapter.OnLoad | web/src/auth/SessionProvider.tsx:22-35 | A page load, with effects run once or, under StrictMode, twice |
| SessionRestore.Adapter.OnClickSignOut | web/src/auth/SessionProvider.tsx:101-108 | A sign-out marks the tab first |
| SessionRestore.StepKeeps | web/src/auth/SessionProvider.tsx:28-71 | Every event keeps the invariant that ties the mark, the page and the log |
| SessionRestore.OnePerPage | web/src/auth/SessionProvider.tsx:26-39 | Whatever storage allows, a page makes at most one silent redirect and none once signed in |
| SessionRestore.LoadSpelled | web/src/auth/SessionProvider.tsx:37-71 | A page load redirects exactly when it is not the callback, the provider is done without a session, and storage works and holds no mark; the mark is then set, and a session removes it |
| SessionRestore.ChangeSpelled | web/src/auth/SessionProvider.tsx:26-71 | A later change does so under the same conditions, unless the page has tried before or was signed in |
| SessionRestore.LoadingEnds | web/src/auth/SessionProvider.tsx:79-83 | A page shows loading only while the provider is loading or after its own silent redirect, never otherwise |
| SessionRestore.StatusTold | web/src/auth/SessionProvider.tsx:79-83 | A page shows signed in exactly while the latest report has a session, loading while it says so, and else signed out unless its own redirect is on its way |
| SessionRestore.StatusAfterLoad | web/src/auth/SessionProvider.tsx:50-59 | A page without a session shows loading while its redirect is on its way, and signed out when it fails or is not made |
| SessionRestore.StatusAfterLoss | web/src/auth/SessionProvider.tsx:30-35 | A page that loses its session shows signed out |
| SessionRestore.NeverLoops | web/src/auth/SessionProvider.tsx:40-56 | Whatever storage allows, in every run of a tab a silent redirect follows an earlier one, or a sign-out, only after a sign-in |
| SessionRestore.RedirectsIffReadAndWritten | web/src/auth/SessionProvider.tsx:42-59 | A silent redirect ever happens exactly where storage can be read and written, so a blocked store cannot loop |
| SessionRestore.OncePerTabIff | README.md:452 | Every run of a tab makes at most one silent redirect exactly when storage refuses reads, writes or removals |
| SessionRestore.TwiceAroundASignIn | web/src/auth/SessionProvider.tsx:62-71 | A run with working storage that redirects, signs in and redirects again |
| SessionRestore.RedirectsBounded | web/src/auth/SessionProvider.tsx:40-71 | Whatever storage allows, a tab makes at most one silent redirect more than it has sign-ins, so at most one when no event reports a session |
| ClientIp.Resolve | backend/crates/api/src/client_ip.rs:30-46 | The scan from the right equals the verdict at the rightmost hop that is not a trusted address |
| ClientIp.AnswerIffRightmostUntrusted | backend/crates/api/src/client_ip.rs:28-46 | An address other than the peer's is the answer exactly when it is the rightmost untrusted hop behind a trusted peer and trusted hops; so the answer is the peer or untrusted |
| ClientIp.PrependedHops | backend/crates/api/src/client_ip.rs:38-44 | Hops added on the left are read only when all hops already there are trusted addresses |
| ClientIp.HopsAreListed | backend/crates/api/src/client_ip.rs:38 | A header that lists texts, with any white space around each, has those texts as its hops |
| Preconditions.TagsAreHeaderValues | backend/crates/api/src/preconditions.rs:11-18 | A tag is always a valid header value and different versions have different tags |
| Preconditions.DecimalInjective | backend/crates/api/src/preconditions.rs:14-29 | Different numbers are written differently |
| Preconditions.ListedIffPasses | backend/crates/api/src/preconditions.rs:20-38 | A header that lists strong and weak tags, with any whitespace around each, passes exactly when the current version's strong tag is among them |
| Preconditions.MissingOrStar | backend/crates/api/src/preconditions.rs:20-33 | A missing header asks for one; a star with any whitespace around it passes for every version |
| Preconditions.UnreadableConflicts | backend/crates/api/src/preconditions.rs:30-38 | A header with a character outside visible ASCII, space and tab conflicts |
| Preconditions.PassesIff | backend/crates/api/src/preconditions.rs:30-38 | Any other header passes exactly when it is a star or a part between commas is the tag, both trimmed |
| Preconditions.TagSpelled | backend/crates/api/src/preconditions.rs:11-29 | A tag is a quoted `v`, a minus sign for a negative version, and the decimal digits of its size without leading zeros |
| Texts.SplitConcat | backend/crates/api/src/client_ip.rs:38 | Two texts around a separator split into the parts of the first, then those of the second |
| Texts.SplitJoin | backend/crates/api/src/preconditions.rs:32 | Splitting undoes joining |
| Texts.WhiteSpaceListed | backend/crates/api/src/client_ip.rs:38 | The 25 characters that trimming removes |
| AuditDto.FromRow | backend/crates/api/src/dto.rs:421-448 | The details rewritten in place, field by field in any order, are the resolved details |
| AuditDto.SameIffNamesAgree | backend/crates/api/src/dto.rs:403-448 | An event reads the same under two name maps exactly when they agree on the referenced ids of users who are not deleted |
| AuditDto.FetchedNamesSuffice | backend/crates/api/src/dto.rs:401-417 | Names fetched for the collected ids only give the same event as any larger map |
| AuditDto.OnlyReferencesChange | backend/crates/api/src/dto.rs:425-435 | A details field changes exactly when it is a text under a `_user_id` key that parses as an id; a deleted user's reference carries no name |
| AuditDto.EveryReferenceInPlace | backend/crates/api/src/dto.rs:421-448 | Actor, owner, subject and every `_user_id` field that parses are each the reference to their own id, with its deletion and its name; every other field is as it was |
| AuditDto.ReferencedIff | backend/crates/api/src/dto.rs:401-417 | The collected ids are exactly those references |

## Left out

- HTTP, `docker logs`, file modes, the temporary file and its rename, JWT signing and process spawning of `xtask`: a call is an atomic step on a modelled server, a file is a text.
- Projects, applications, login policy, the SMTP fallback provider and the member user of the bootstrap: each is one call settled by reading it.
- `--check`, printing and warnings: they change nothing.
- Loading and validating the message files, with their placeholder pattern: texts are given.
- Waiting time, memory reuse and the redaction of stream error texts in the upload driver.
- Constant-time comparison of tags, the hash of the recipient's address, percent-encoding in the URL library.
- Text outside one Unicode scalar value per character: JavaScript counts UTF-16 units, and the logo is indexed by bytes, which for ASCII lowercasing gives the same matches.
- What a scope's getters may do when a path is walked: reading a property has no effect.
- The request clone, the `Accept-Language` header, and what `removeUser` triggers beyond the event it sends.
- Claims that no token exists after a sign-out: a late load or renewal may set it again, and the model allows that.
- The notices and the return address of the session component.
- Storage whose permissions change while a tab lives.
- `parse_trusted_proxies`, header values that appear more than once, and the copied fields of the audit event (id, time, kind, address, request).
- Upload.UploadChunks: requires a source below 2^64 bytes, because the driver counts in 64 bits and does not check.
- Poll.PollUntil: requires that the loop ends, because a run without an end returns nothing; `EndsIff` says for which durations every run ends.
- Dotenv.ReadingsAfterEdit: speaks of keys without `=`, line breaks, a leading byte order mark or a leading `export `, because a line of such a key is not recognised as its own.
- MailProvider.ActiveIffNoOperators: takes at most one provider to be active, because the server keeps it so by deactivating every other.
- MailProvider.AgreesIffVaultTrusted: assumes that the server does not issue a key the vault already holds, because a stale key could then be right by accident.
- EmailLinks.UrlsRoundTrip: speaks of click destinations that are what their own text parses to, because that rests on the URL library.
