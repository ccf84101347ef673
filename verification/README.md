# ReliableLegal site core, modelled in Dafny

This project models the logic of the Reliable Legal Solutions website. It covers two scripts.

The service worker, `sw.js`:
- it installs the site's assets into a version-stamped cache;
- on activation it deletes every other cache;
- it answers admitted GET requests cache-first, falls back to the network, and stores good same-origin responses;
- it serves the cached index page to page loads when the network is down;
- on a `form-submission` sync it replays stored form submissions.

The page script, `script.js`:
- the consultation form's validation, for the whole form and for single fields;
- the subject map, the WhatsApp message and the Gmail body built from the form;
- the submit handler, modelled as a trace of effects (disable button, send, toast, reset, open WhatsApp, restore button), and the Gmail button;
- the typewriter banner, the practice-area filter, the FAQ accordion, the statistics counter and the mobile navigation menu;
- `fetchWithRetry`, with exponential backoff.

Each file is one module:

| file | module | models |
|---|---|---|
| Options.dfy | `Options` | an optional value |
| Text.dfy | `Text` | JavaScript's white space, `trim`, `replace(/\s/g, '')`, `includes`, and reading text line by line |
| FormValidation.dfy | `FormValidation` | `validateForm`, `validateField`, and the e-mail and phone regular expressions |
| Messages.dfy | `Messages` | `subjectMap`, `createWhatsAppMessage`, the Gmail body |
| ContactSubmit.dfy | `ContactSubmit` | the submit handler, the Web3Forms payload, the Gmail button |
| Typing.dfy | `Typing` | `initTypingEffect` |
| PracticeFilter.dfy | `PracticeFilter` | `initPracticeFilters` |
| Faq.dfy | `Faq` | `initFAQ` |
| Counter.dfy | `Counter` | the `updateCount` loop of `initCounters` |
| Navigation.dfy | `Navigation` | the menu handlers of `initNavigation` and the Escape key handler |
| Retry.dfy | `Retry` | `fetchWithRetry` |
| CacheWorker.dfy | `CacheWorker` | the service worker: install, activate, fetch, sync and replay |

Calls the scripts make to things outside them become parameters:
- the network is a value or a function from attempt number to result;
- the Web3Forms reply is a `Reply`;
- what the downloads of install returned is a function from path to response;
- the stored submissions are a sequence.

Each of them is therefore an input to a pure function.

Three facts about the service worker's code and the platform it calls shape the model:
- **Cache lookup.** The fetch handler calls `caches.match`, which searches every cache in creation order and returns the first entry found (`CacheWorker.Match`).
- **Install.** Install uses `cache.addAll`, which stores all entries or none. It rejects the batch when a download fails, when a status is outside 200-299 or is 206, and when a request is listed twice (`CacheWorker.Install`).
- **External hosts.** The host test is `hostname.includes(...)`, a substring test (`CacheWorker.AllowedHost`).

Two disagreements inside the page script are modelled as written and stated as properties:
- **Blank subject.** `validateForm` accepts a subject of only spaces, but `validateField` rejects it (`FormValidation.BlankSubjectDisagrees`).
- **Description test.** The WhatsApp message includes the description only when its trimmed text is non-empty. The Gmail body includes it whenever it is non-empty (`Messages.WhatsAppLines`, `Messages.GmailLines`).

## Model

| member | source | states |
|---|---|---|
| Text.Trim | script.js:393 | the result is the input with its leading and trailing white space cut, and it is empty exactly when the input is all white space |
| Text.TrimIsTrim | script.js:427 | trimming the start and then the end leaves the input's middle at the position after its leading white space |
| Text.TrimIdempotent | script.js:834 | trimming an already trimmed heading changes nothing |
| Text.StripSpaces | script.js:409 | the result holds no white space, is no longer than the input, and is empty for all-space input |
| Text.StripSpacesAppend | script.js:445 | removing white space distributes over concatenation |
| Text.StripSpacesOfTrim | script.js:445 | removing white space after trimming gives what removing it from the raw value gives, so the trimmed and untrimmed phone tests see the same text |
| Text.Includes | sw.js:65-67 | `includes` is true exactly when the needle occurs at some position of the host name |
| Text.LinesOfJoin | script.js:501-510 | splitting joined single-line strings at new lines gives them back |
| Text.JoinOfLines | script.js:501-510 | joining a text's lines with new lines gives the text back |
| FormValidation.EmailPatternIff | script.js:400 | the e-mail recogniser accepts exactly the strings `/^[^\s@]+@[^\s@]+\.[^\s@]+$/` matches |
| FormValidation.IsEmail | script.js:400 | the e-mail test itself; EmailPatternIff shows it accepts exactly the expression's language |
| FormValidation.PhonePatternIff | script.js:408 | the phone recogniser accepts exactly the strings the phone expression matches |
| FormValidation.IsPhone | script.js:408 | the phone test itself; PhonePatternIff, PhoneDigits and TenDigitsArePhone characterise it |
| FormValidation.ParsePhone | script.js:408 | a successful parse returns valid pieces that spell the input |
| FormValidation.ParsePhoneComplete | script.js:408 | parsing the text of any valid pieces returns those pieces, so the parser misses no match |
| FormValidation.PhoneDigits | script.js:408 | an accepted phone number has between 10 and 12 digits |
| FormValidation.TenDigitsArePhone | script.js:408 | any ten digits are an accepted phone number |
| FormValidation.EmailRejected | script.js:399-405 | an e-mail is rejected exactly when its trimmed text is non-empty and outside the pattern |
| FormValidation.PhoneRejected | script.js:409 | a phone is rejected exactly when its text with white space removed is outside the pattern |
| FormValidation.FormErrors | script.js:389-421 | each field is marked exactly when its own condition fails: a trimmed name under two characters, a bad non-blank e-mail, a bad phone, an empty subject |
| FormValidation.ValidateForm | script.js:389-421 | `validateForm`'s verdict, true exactly when no field is marked; ValidateFormIffFields and BlankSubjectDisagrees relate it to the field check |
| FormValidation.ValidateField | script.js:426-459 | the blur check for each field name, in both directions, with every other name accepted |
| FormValidation.FormAgreesWithFields | script.js:389-459 | the form check marks a field exactly when the field check rejects that field's value, for any subject that is not blank without being empty |
| FormValidation.ValidateFormIffFields | script.js:389-459 | the form is valid exactly when every field passes its own check, under the same subject condition |
| FormValidation.ValidFromFields | script.js:389-421 | a form whose four fields meet their conditions is valid |
| FormValidation.BlankSubjectDisagrees | script.js:415-454 | a form whose subject is one space passes the form check while the field check rejects that subject |
| FormValidation.TenDigitsPass | script.js:409 | ten digits are never rejected as a phone number |
| Messages.SubjectMapSingleLine | script.js:488-499 | every legal-matter text of the map is a non-empty single line |
| Messages.SubjectText | script.js:488-499 | a key's text, when there is one, is a non-empty single line, and there is none exactly when no entry has the key |
| Messages.Lookup | script.js:488-504 | a table lookup returns a text stored under the key, and returns nothing exactly when no entry has the key |
| Messages.SubjectLabel | script.js:504 | a known key gives its text, any other key gives itself; the label is empty only for an empty key and is a single line when the key is |
| Messages.WhatsAppMessage | script.js:487-513 | the message starts with the header and ends with the footer |
| Messages.WhatsAppLines | script.js:501-510 | read line by line, the message is the header, a blank line, the name, phone and matter lines, the description block only if the trimmed description is non-empty, a blank line and the footer |
| Messages.ComposeWhatsAppLines | script.js:501-510 | the same line structure for any single-line tags and values |
| Messages.GmailBody | script.js:360-369 | the body starts with the greeting and ends with the sender's name |
| Messages.GmailLines | script.js:360-369 | read line by line, the body is the greeting, the request, the name, the e-mail only if given, the phone and matter, the description block only if non-empty, and the closing and name |
| Messages.ComposeGmailLines | script.js:360-369 | the same line structure for any single-line tags and values |
| ContactSubmit.EmailPayload | script.js:276-283 | the payload goes to the firm's address; its legal matter is the subject's mapped label and its subject is the prefix followed by that label; its name and phone are the form's, and its e-mail and message are the form's or the placeholders |
| ContactSubmit.PayloadRoundTrip | script.js:277-281 | name, e-mail, phone and message can be read back from the payload, unless the user typed a placeholder text |
| ContactSubmit.PlaceholderIsAmbiguous | script.js:278 | an e-mail of "Not provided" yields the same payload as no e-mail |
| ContactSubmit.InvalidFormOnlyMarks | script.js:242-244 | an invalid form only marks its bad fields, of which there is at least one |
| ContactSubmit.PostEffects | script.js:250-313 | a valid, non-spam submit disables the button, sends once, then shows success and resets, or opens WhatsApp and warns, and finally restores the button |
| ContactSubmit.SubmitSendsOnce | script.js:250-289 | in the handler as written and in the corrected one alike, one send, of the form's payload, exactly when the form is valid and the botcheck is empty; a filled botcheck sends nothing |
| ContactSubmit.FlowSendsOnce | script.js:250-289 | the same for both handlers, for any field errors, spam flag and payload |
| ContactSubmit.FallbackOnFailure | script.js:250-308 | in both handlers, WhatsApp opens once, with the form's message, exactly when a real send did not come back with success; the botcheck path opens none |
| ContactSubmit.FlowFallback | script.js:250-308 | the same for both handlers, for any field errors, spam flag and fallback text |
| ContactSubmit.ResetOnlyOnSuccess | script.js:250-308 | in both handlers, the form is reset exactly on a successful reply, the success toast comes with the reset, and the warning toast comes with WhatsApp; the botcheck path resets nothing |
| ContactSubmit.FlowResets | script.js:250-308 | the same for both handlers, for any field errors and spam flag |
| ContactSubmit.FlowsDifferOnSpam | script.js:250-274 | the handler as written differs from the corrected one only for a valid form with the botcheck filled, where it only disables the button |
| ContactSubmit.BotcheckLeavesButtonDisabled | script.js:250-274 | as written, a valid form with a filled botcheck leaves the submit button disabled |
| ContactSubmit.FlowAsWrittenSpam | script.js:250-274 | as written, the spam return comes after the button is disabled and nothing restores it |
| ContactSubmit.BotcheckExample | script.js:272-273 | a concrete valid form with botcheck "on" ends with the button disabled |
| ContactSubmit.SubmitRestoresButton | script.js:309-313 | with the spam test before the button is touched, every submit ends with the button enabled |
| ContactSubmit.FlowRestoresButton | script.js:309-313 | the same for any field errors, spam flag and reply |
| ContactSubmit.SubmitMatchesAsWritten | script.js:242-313 | the corrected handler differs from the written one only for a valid form with a filled botcheck |
| ContactSubmit.SubmitAsWritten | script.js:234-313 | the submit handler as the page runs it; SubmitSendsOnce, FallbackOnFailure, ResetOnlyOnSuccess and BotcheckLeavesButtonDisabled state its effects |
| ContactSubmit.SubmitFlowAsWritten | script.js:242-313 | the same handler over its parts; FlowSendsOnce, FlowFallback, FlowResets and FlowAsWrittenSpam state its effects |
| ContactSubmit.Submit | script.js:234-313 | the handler with the botcheck test before the button is disabled; the same lemmas and SubmitRestoresButton state its effects |
| ContactSubmit.SubmitFlow | script.js:242-313 | the corrected handler over its parts; FlowsDifferOnSpam relates it to the handler as written |
| ContactSubmit.GmailOpensOnce | script.js:334-382 | the Gmail button opens Gmail, first and with the mail subject and body, exactly when the form is valid; it never sends, never opens WhatsApp and leaves the button enabled |
| ContactSubmit.GmailClick | script.js:334-382 | the Gmail button's click; GmailOpensOnce states what it does |
| ContactSubmit.GmailFlow | script.js:334-382 | the same click over its parts; GmailFlowOpensOnce states what it does |
| ContactSubmit.GmailFlowOpensOnce | script.js:334-382 | the same for any field errors, subject and body |
| Typing.Prefix | script.js:781 | `substring(0, end)` is a prefix of the phrase, clamped to its bounds |
| Typing.Step | script.js:777-800 | one tick keeps the phrase index in range, keeps the typing invariant, shows a prefix of the current phrase one character longer or shorter, and changes phrase only after deleting |
| Typing.StepsKeepInv | script.js:777-800 | the typing invariant holds after any number of ticks |
| Typing.Steps | script.js:777-802 | the state after any number of ticks keeps the phrase index in range |
| Typing.AsWrittenStart | script.js:772-774 | the page's starting state breaks the invariant: it is typing a phrase that is already complete |
| Typing.AsWrittenNeverCycles | script.js:772-800 | from the page's start, after n ticks the character count is the phrase length plus n, and every tick shows the whole first phrase |
| Typing.Start | script.js:772-774 | starting on the complete first phrase in deleting mode satisfies the invariant |
| Typing.TypeAll | script.js:784-792 | typing a phrase out takes as many ticks as it has characters and ends in deleting mode |
| Typing.DeleteAll | script.js:780-796 | deleting takes as many ticks as there are characters and moves on to the next phrase |
| Typing.Cycle | script.js:777-800 | twice a phrase's length in ticks takes the banner from the start of a phrase to the start of the next, wrapping around |
| Typing.StartCycles | script.js:772-800 | from the corrected start, the second phrase is reached |
| Typing.PhrasesWellFormed | script.js:757-770 | the twelve phrases are all non-empty |
| PracticeFilter.KnownCategory | script.js:815-828 | every heading in the map has one of the five named categories |
| PracticeFilter.Category | script.js:834 | a heading's category is its trimmed text's mapped category, or "other" exactly when that text is unmapped |
| PracticeFilter.CategoryIgnoresPadding | script.js:834 | white space around a heading does not change its category |
| PracticeFilter.CardCategory | script.js:831-836 | a card gets a category exactly when it has a heading |
| PracticeFilter.ActiveButtons | script.js:842-843 | removing the class from every button and adding it to the clicked one leaves exactly the clicked button active |
| PracticeFilter.ActiveForgetsBefore | script.js:842-843 | which buttons were active before a click does not affect which are active after it |
| PracticeFilter.AllShowsEverything | script.js:847 | the "all" filter shows every card |
| PracticeFilter.UnknownFilterHidesAll | script.js:847 | a filter that is no category hides every card |
| PracticeFilter.OneCategoryPerCard | script.js:845-854 | a card shown by two category filters was shown by one and the same category |
| PracticeFilter.SomeCategoryPerCard | script.js:831-854 | every card with a heading is shown by its own category's filter |
| Faq.CloseAll | script.js:874-878 | every item is closed, every question is marked collapsed, and an item without a question keeps its attribute |
| Faq.Click | script.js:870-885 | after a click, only the clicked item is open, and only if it was closed before; `aria-expanded` follows each item's state |
| Faq.ClickEstablishesInv | script.js:870-885 | after any click, at most one item is open and every question's `aria-expanded` is right |
| Faq.ClickTwice | script.js:870-885 | clicking the same question twice restores that item's state and leaves all others closed |
| Counter.Increment | script.js:953 | the increment is the ceiling of the count divided by 50 |
| Counter.CountUp | script.js:950-963 | the frames shown never exceed the count, never decrease, end with the count, and number at most 50 increments plus the final frame; every frame before the last two is below the count, so counting stops at the first increment that reaches it |
| Counter.StepBound | script.js:953-957 | fewer than 50 increments stay below the count |
| Navigation.Close | script.js:63-93 | closing leaves the flags consistent unless the overlay is missing and its flag was set, and from a consistent state it gives the closed menu |
| Navigation.Handle | script.js:47-93 | a toggle click flips the menu and the toggle; every other event closes the menu; an Escape on a closed menu changes nothing; a missing overlay never becomes active |
| Navigation.HandleKeepsInv | script.js:47-93 | every event keeps the toggle, menu, overlay and scroll lock in agreement |
| Navigation.RunKeepsInv | script.js:47-93 | any sequence of events keeps them in agreement |
| Navigation.EscapeLikeOtherClosers | script.js:697-712 | from an agreeing state, Escape ends where an overlay, link or outside click ends: all closed |
| Navigation.ToggleTwice | script.js:48-59 | two toggle clicks restore the menu, with scrolling locked exactly when the menu is open |
| Retry.RunFrom | script.js:1287-1307 | the attempts made are consecutive; every attempt before the last was refused; the backoffs double from one second; the helper returns the first accepted response, or throws the last attempt's error once attempts run out, or returns nothing when no attempt is allowed |
| Retry.FetchWithRetry | script.js:1287-1307 | the loop computes the same as that recursive reading: at most `retries` calls, backoffs of 1000·2^j ms between them, and an accepted response when it returns one |
| Retry.DocumentedRetry | script.js:1304 | with one more attempt, a network that is always down waits between every pair of attempts |
| Retry.DefaultBackoff | script.js:1287-1305 | with the default three retries and the network down, the helper makes three calls and waits 1 s and 2 s; only the corrected reading waits 1 s, 2 s and 4 s |
| CacheWorker.Match | sw.js:72 | a lookup returns the entry of the first cache, in creation order, that holds the key, and returns nothing exactly when no cache holds the key |
| CacheWorker.MatchIn | sw.js:72 | searching caches in a given order returns the entry of the first one that holds the key, and nothing exactly when none does |
| CacheWorker.Open | sw.js:21 | opening keeps every existing cache and creates a missing one, empty and last |
| CacheWorker.Put | sw.js:90-93 | a store puts the response under the key in the named cache and changes no other cache |
| CacheWorker.Install | sw.js:17-33 | when every download is ok (200-299 but not 206) and no asset is listed twice, each asset is cached with its response; otherwise only the empty cache is created; other caches are never changed |
| CacheWorker.SiteAssetsDistinct | sw.js:2-14 | the site's asset list names no asset twice |
| CacheWorker.InstallSite | sw.js:20-28 | a successful install caches the index page |
| CacheWorker.KeepCurrent | sw.js:40-49 | exactly the current cache's name survives |
| CacheWorker.Activate | sw.js:36-55 | only the current cache is left, with its contents unchanged |
| CacheWorker.ActivateIdempotent | sw.js:36-55 | activating twice is the same as activating once |
| CacheWorker.Fetch | sw.js:58-109 | exactly the non-admitted requests pass through; the network is called exactly on an admitted miss; the caches change only to store an admitted, fetched, cacheable response |
| CacheWorker.Admitted | sw.js:60-69 | the handler's admission test; NotAdmittedUntouched and Fetch state what admission decides |
| CacheWorker.AllowedHost | sw.js:64-67 | the substring test on the host name; LookalikeHostAdmitted shows it admits any host containing an allowed one |
| CacheWorker.LookalikeHostAdmitted | sw.js:63-69 | a GET request to `fonts.gstatic.com.example.net` is admitted, whatever the site's origin |
| CacheWorker.Cacheable | sw.js:83 | status 200 and type basic; MissPath states that exactly these responses are stored |
| CacheWorker.NotAdmittedUntouched | sw.js:60-69 | a non-GET or foreign request passes through with no lookup and no change |
| CacheWorker.CacheHit | sw.js:72-77 | a hit returns the cached response without calling the network |
| CacheWorker.MissPath | sw.js:80-95 | a miss returns the network's response and stores it only when it is a 200 same-origin response |
| CacheWorker.NetworkFailure | sw.js:97-106 | when the network fails, a page load gets the cached index page and any other request fails |
| CacheWorker.PutThenMatch | sw.js:90-93 | after storing a response for a key no cache held, lookups of that key find it |
| CacheWorker.SecondFetchHits | sw.js:72-95 | after a cacheable miss, the same request is answered from the cache without the network |
| CacheWorker.OfflineShellAfterInstall | sw.js:17-106 | after a complete install and an activation, an offline page load that misses gets the installed index page |
| CacheWorker.SoleCacheMatch | sw.js:72 | when only the current cache exists, a lookup returns that cache's entry |
| CacheWorker.Replay | sw.js:122-149 | the loop computes the same as the recursive reading of the replay |
| CacheWorker.ReplayFrom | sw.js:126-145 | the replay from position `k` leaves at most the submissions from `k` on; ReplayKeepsUndelivered, ReplayOrder and ReplayCounts characterise it |
| CacheWorker.ReplayKeepsUndelivered | sw.js:126-141 | the submissions left are exactly those whose post was not ok, in their stored order |
| CacheWorker.ReplayCounts | sw.js:126-145 | every submission is posted once, even after earlier failures, and there is one removal and one notification per ok post |
| CacheWorker.ReplayOrder | sw.js:126-145 | the posted ids are the stored submissions' ids in stored order, and the removed and the notified ids are the delivered submissions' ids in stored order |
| CacheWorker.ReplayNotifiesAfterRemove | sw.js:130-140 | every removal is immediately followed by its notification |
| CacheWorker.Sync | sw.js:112-119 | only the `form-submission` tag replays; any other tag leaves the queue as it is |
| CacheWorker.ReplayScenario | sw.js:122-149 | two stored submissions, the first failing once: the first sync keeps only it, and the second sync delivers it |

## Left out

- Strings are sequences of characters. JavaScript's `length` and `substring` count UTF-16 code units, which differ only for characters outside the Basic Multilingual Plane.
- Form fields missing from the form data are modelled as empty strings, since the page's form always submits all of them. `subjectMap` keys that name `Object.prototype` members are not modelled.
- The cache keys are request URLs compared as strings, with no URL resolution. The `method` part of a cache key is not modelled, since only GET requests reach the lookup.
- `cache.addAll` compares requests as URL strings when it looks for duplicates. Its `Vary` header handling and the `error` response type are not modelled: a network error is a missing download.
- `cache.put` in the fetch handler is not awaited in the source. The model applies it at once and treats it as atomic.
- The sequence of caches stands for the creation order `caches.match` searches.
- IndexedDB storage is not modelled. `getStoredSubmissions` and `removeStoredSubmission` are stubs in the source, so the queue is a parameter and removal is an effect.
- The push and notification-click handlers are not modelled. They only show a notification or open a window.
- These are not modelled:
  - DOM rendering: toasts, field error messages, CSS classes beyond the flags modelled, focus management, modals, smooth scrolling, scroll reveal, parallax, lazy loading, network status, performance monitoring, analytics;
  - timers: delays appear as numbers, and `setTimeout` chains as sequences of steps;
  - floating point: the counter's arithmetic is on integers, which is exact for the integer counts `parseInt` returns.
- `encodeURIComponent` and the final URLs of WhatsApp and Gmail are not modelled. The effects carry the unencoded text.
- The counter's `+`/`%` suffix and `parseInt` are not modelled. The count is an integer parameter.
- The menu's overlay element may be missing. The `hasOverlay` parameter says whether it exists, and the toggle and closing handlers touch its flag only when it does.
- `handleFormFallback` and `storeFormForRetry` are not modelled. Nothing on the page calls them, and the second only writes to `localStorage`.

## Findings

| source | as written | input that shows it | evidently intended | confidence | as-written member | corrected member |
|---|---|---|---|---|---|---|
| script.js:772-800 | the banner starts with `charIndex` at the first phrase's length but not deleting, and the "phrase complete" test is an equality, so the count runs past the end | any phrase list: every tick shows the whole first phrase and `charIndex` keeps growing | start in deleting mode (or at 0) so the banner cycles through all twelve phrases | medium, not executed | Typing.AsWrittenNeverCycles | Typing.StartCycles |
| script.js:250-274 | the submit button is disabled before the botcheck test, and the spam `return` skips the `finally` that restores it | a valid form whose hidden botcheck field is "on" | test the botcheck before touching the button, so every path restores it | high, not executed | ContactSubmit.BotcheckLeavesButtonDisabled | ContactSubmit.SubmitRestoresButton |
| script.js:1304-1305 | with `retries = 3`, the helper waits only after the first two attempts: 1 s and 2 s | a network that is always down: three calls, waits of 1000 and 2000 ms | the comment's "1s, 2s, 4s", i.e. one more attempt after a 4 s wait | low, not executed | Retry.DefaultBackoff | Retry.DocumentedRetry |
