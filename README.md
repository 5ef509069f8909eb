# Price check page: a Dafny model

This project models the browser side of the price-check demo, `static/script.js`. Staff open the page, type or scan a barcode, and see the product's pre-tax price. A search only runs once the client-side password gate lets the user through. The model covers these parts of the page:

- **The password gate.** The password of the day is the `MMDD` number plus 1234. The expiry timestamp is kept in `sessionStorage` under `pricecheck_session_expires`. A session lasts 30 minutes.
- **The countdown label.** It shows `本次登入剩餘 mm:ss`.
- **The prompt loop of `ensureSession`.** It repeats the prompt until the right password or a cancel.
- **The lookup.** `fetchAndShow` sorts the server's reply into an error message or a displayed record, and `showResult` maps the record's fields to the texts of the result panel.
- **The camera scanner's repeat filter.** The same code read again within 4.5 seconds is ignored.
- **The handlers that tie these together.** These are the search, the scan button, the scanner's detection callback and the page-load step.

The model is split into these modules:

| module | file | contents |
|---|---|---|
| `Optional` | `optional.dfy` | `Option`, for `null`/`undefined` |
| `Text` | `text.dfy` | The JavaScript string operations the page relies on: `String(n)` for integers, decimal parsing, `padStart`, and `trim` with ECMAScript's white-space set. Each has its round-trip or characterising lemmas. |
| `Session` | `session.dfy` | The password, the stored expiry, the countdown label and the prompt loop, as functions. The `SessionGate` class holds the page state that `setNewSession`, `clearSession`, the countdown and `ensureSession` update in place: the storage map, whether the interval runs, and the label text. |
| `Lookup` | `lookup.dfy` | JSON values, JavaScript truthiness and `String()`, the field mapping, `showError`/`showResult` and `fetchAndShow`. |
| `Scanner` | `scanner.dfy` | The repeat filter as a step function, and runs of detections. |
| `Page` | `page.dfy` | The `PriceCheckPage` class: the barcode field, the filter's memory (`lastDetectedCode`, `lastDetectedTime`) and the panels, with the handlers. |

The model does not read clocks, the calendar, prompts or the network; the caller supplies them as parameters.

| parameter | stands for | form |
|---|---|---|
| `now` | `Date.now()`, one value per handler run | milliseconds |
| `today` | `getMonth() + 1` and `getDate()` | `Day` |
| `answers` | the successive `window.prompt` results | text or cancel, each with the clock at that moment |
| `response` | what `fetch` and `resp.json()` yield | network failure, or reply with `ok` and a parsed or unparseable body |

When every answer supplied is wrong, the prompt loop ends in `AwaitingAnswer`: the page is still prompting. The same outcome covers the case where no answers are supplied at all.

The server in `api.py` wraps its own 404 ("no such barcode") in its catch-all `except`, which turns it into a 500. Seen from the page, an unknown barcode is therefore a non-ok reply and shows `查詢失敗，請稍後再試`. The `查無此商品` and `data.message` paths of `fetchAndShow` are still modelled, for replies with `success: false`.

## Model

| member | source | states |
|---|---|---|
| Text.NatToString | static/script.js:34 | `String(n)` for a natural number: digits with no leading zero. Its value is given by `NatToStringValue`. |
| Text.DigitsValue | static/script.js:33 | `parseInt(s, 10)` of a digit string: the number it denotes. It is the inverse of `NatToString` (see `NatToStringValue`, `StringToNatToString`). |
| Text.PadStart | static/script.js:31-32 | `padStart(width, fill)`: the result is `width` long when `s` is shorter, else `s`. Its shape is given by `PadStartShape`. |
| Text.Trim | static/script.js:117 | `trim()` over ECMAScript's white-space set. It is characterised by `TrimShape` and `TrimSurrounded`. |
| Session.IsLive | static/script.js:44-47 | `expire && Date.now() < expire`: a nonzero expiry still in the future. |
| Session.SessionGate.Stored | static/script.js:38 | `sessionStorage.getItem(SESSION_KEY)`: the stored text, or none. |
| Session.SessionGate.Expire | static/script.js:37-42 | `getSessionExpire()`: `ReadExpiry` of the stored entry. |
| Session.SessionGate.HasValidSession | static/script.js:44-47 | `hasValidSession()`: `IsLive` of the stored expiry at `now`. `NewSessionWindow` and `ClearSession` state when it holds. |
| Session.ClockFields | static/script.js:84-86 | The `mm` and `ss` fields of the countdown. `ClockFieldsValue` states their value. |
| Session.CountdownLabel | static/script.js:84-87 | The label for `diff` milliseconds left. `CountdownLabelReadsBack` states what it reads back as. |
| Lookup.Member | static/script.js:145-149 | `data.key`: the member of an object, or undefined. |
| Lookup.Truthy | static/script.js:145-149 | JavaScript truthiness: `null`, `undefined`, `false`, `0` and `""` are falsy. |
| Lookup.ToText | static/script.js:145-149 | `String(v)` as `textContent` shows it. `TruthyScalarText` states that a truthy scalar shows non-empty. |
| Lookup.TextOr | static/script.js:145-148 | The shown text of `v`, or `fallback` when `v` is falsy. |
| Lookup.Fields | static/script.js:145-149 | The texts `showResult` writes. `ApiRecordShown`, `ZeroPriceShown`, `EmptyRecordShown` and `DisplayNeverBlank` state them. |
| Lookup.IsRecord | static/script.js:164 | A reply is shown as a record when it is truthy and `success` is not exactly `false`. |
| Lookup.RefusalMessage | static/script.js:165 | `data && data.message ? data.message : '查無此商品'`. |
| Scanner.Admits | static/script.js:242-248 | A detection is accepted when it has a nonempty code that is not the remembered code read again within 4500 ms. |
| Scanner.Step | static/script.js:242-251 | The filter memory after one detection. |
| Scanner.Run | static/script.js:242-251 | The memory and the accepted reads after a run of detections. `RunFinal`, `RepeatsIgnored` and `AcceptedRepeatsSpaced` state its properties. |
| Page.PriceCheckPage.Barcode | static/script.js:182 | The barcode a search looks up: the trimmed field, or empty on a page without the field. |
| Text.NatToStringValue | static/script.js:34 | The decimal rendering of a number reads back as that number. |
| Text.StringToNatToString | static/script.js:33-34 | A canonical digit string is the rendering of its own value. Rendering and reading are inverse. |
| Text.DigitsValueAppend | static/script.js:33 | The value of `mm + dd` is the value of `mm` shifted by the digits of `dd`, plus `dd`. |
| Text.TwoDigitField | static/script.js:31-32 | `String(n).padStart(2, '0')` is all digits and reads back as `n`. It is exactly two characters when `n < 100`. |
| Text.PadStartShape | static/script.js:85-86 | The padded text ends with the original and is filled with the pad character in front of it. |
| Text.ZeroPadValue | static/script.js:85-86 | Zero-padding keeps a digit string's value. |
| Text.TrimShape | static/script.js:117 | The trimmed text neither starts nor ends with white space. The input is that text with only white space around it. |
| Text.TrimSurrounded | static/script.js:117 | Any white space around a text without outer spaces is removed by trimming, and nothing else is. |
| Text.TrimIdempotent | static/script.js:182 | Trimming twice is trimming once. |
| Session.TodayPassword | static/script.js:28-35 | The password is a digit string without a leading zero, worth `100 * month + day + 1234`. |
| Session.MonthDayNumber | static/script.js:31-33 | `parseInt(mm + dd)` is `100 * month + day`. |
| Session.PasswordOfCalendarDay | static/script.js:28-35 | On a calendar day the password is the four-digit rendering of `100 * month + day + 1234`, between 1335 and 2465. |
| Session.PasswordOnDecemberSecond | static/script.js:28 | December 2nd gives "2436", the example in the source. |
| Session.ToNumber | static/script.js:40 | `Number()` of a nonempty digit string is the number it denotes. |
| Session.ReadExpiry | static/script.js:37-42 | The expiry is nonzero only when a nonempty stored text converts to a finite number, and then it is that number. A missing, empty or non-numeric entry gives 0. |
| Session.ExpiryRoundTrip | static/script.js:37-51 | The timestamp `setNewSession` stores reads back through `getSessionExpire` unchanged. |
| Session.NewSessionWindow | static/script.js:44-51 | A session started at `start` is valid exactly while `now < start + 30 min`. |
| Session.ClockFieldsValue | static/script.js:84-86 | The minutes and seconds fields are zero-padded digits with seconds below 60, and `mm * 60 + ss` is the whole number of seconds. |
| Session.CountdownLabelReadsBack | static/script.js:84-87 | The label is the prefix and `mm:ss`, whose seconds are within one second below the remaining milliseconds. |
| Session.TickResult | static/script.js:70-88 | `update` blanks the label exactly when nothing is stored. It expires the session exactly when a stored session is no longer valid. It shows the time left exactly when the session is valid. |
| Session.FirstEnding | static/script.js:107-123 | The loop stops at the first answer that is a cancel or the trimmed password. Every earlier answer was neither. |
| Session.PromptLoop | static/script.js:107-123 | The prompt loop never reports an already valid session. |
| Session.LoginAt | static/script.js:111-119 | The loop logs in at answer `k` if and only if that answer, trimmed, is the password and every earlier answer was a wrong password. |
| Session.CancelAt | static/script.js:111-115 | The loop is cancelled at answer `k` if and only if that answer is a cancel and every earlier answer was a wrong password. |
| Session.WrongAnswerReprompts | static/script.js:117-122 | A wrong answer only re-prompts. The outcome is that of the remaining answers, one attempt later. |
| Session.PaddedPasswordAccepted | static/script.js:117 | The password typed with white space around it is accepted. |
| Session.SessionGate.constructor | static/script.js:26 | The page starts with the tab's storage, no interval, and the label text the markup gives it. |
| Session.SessionGate.ClearSession | static/script.js:55-64 | The entry is removed, the interval stopped and the expiry notice shown. No session is valid afterwards at any time. |
| Session.SessionGate.Tick | static/script.js:70-88 | One `update`: the outcome is `TickResult` of the stored expiry. It blanks the label, shows the time left, or clears the session and shows the notice. |
| Session.SessionGate.StartCountdown | static/script.js:67-93 | Nothing without a label. Otherwise it runs one `update` and leaves the interval running. |
| Session.SessionGate.SetNewSession | static/script.js:49-53 | It stores `now + 30 min`, the expiry reads back as that, and on a page with a label the countdown runs. The label shows `30:00` when the first `update` reads the same clock value as `setNewSession` (see Left out). |
| Session.SessionGate.EnsureSession | static/script.js:96-124 | A valid session returns at once. Otherwise the outcome is the prompt loop on today's password. Only a login changes the state, and it starts a session at the time of the accepted answer. |
| Session.SessionGate.AskPassword | static/script.js:107-123 | The loop's outcome is `PromptLoop`. A cancel or unanswered prompts change nothing. A login calls `setNewSession` at the answer's time. |
| Session.SessionGate.OnLoad | static/script.js:261-270 | On load, a valid session resumes its countdown with the time left. Otherwise the user is asked once: a cancel changes nothing, and a login starts a session at the time of the accepted answer. |
| Lookup.TruthyScalarText | static/script.js:145-149 | A truthy scalar never renders as the empty text. |
| Lookup.ShowError | static/script.js:127-135 | The error panel shows the message, the result panel is hidden, and the result texts are kept. |
| Lookup.ShowResult | static/script.js:137-150 | The error panel is hidden and the result panel shows the fields of the record. |
| Lookup.ApiRecordShown | static/script.js:145-149 | A record as the server builds it, with all fields present, shows name, barcode, unit and item number verbatim and the price as its decimal rendering. |
| Lookup.ZeroPriceShown | static/script.js:147 | A price of 0 shows as "0", while falsy name, unit and item number fall back. |
| Lookup.EmptyRecordShown | static/script.js:145-149 | A record with none of the fields shows `—` for name, barcode and price and nothing for unit and item number. |
| Lookup.DisplayNeverBlank | static/script.js:145-147 | With scalar fields, name and barcode are never blank. The price is blank exactly when the server sent the empty text as price. |
| Lookup.FetchAndShow | static/script.js:152-173 | Exactly one panel is shown. A request is sent if and only if the barcode is nonempty. The result panel is shown if and only if an ok reply parses to a record that is truthy and not `success: false`, and then it shows that record's fields. |
| Lookup.EmptyBarcodeNoRequest | static/script.js:153-156 | An empty barcode shows `請先輸入或掃描條碼` whatever the server would answer. |
| Lookup.LookupErrorMessages | static/script.js:158-172 | A network failure, a non-ok reply or an unparseable body shows `查詢失敗，請稍後再試`. An ok reply whose body is falsy (`null`, `false`, `0`, `""`) shows `查無此商品`. `success: false` shows the reply's message, or `查無此商品` without one. |
| Scanner.RunFinal | static/script.js:241-251 | The filter's memory is always the last accepted detection, or its start value. |
| Scanner.AcceptedAreDetections | static/script.js:241-251 | Every accepted read is one of the detections, with a nonempty code. |
| Scanner.RepeatsIgnored | static/script.js:245-249 | Reads of the remembered code, or without a code, within 4500 ms of it are all ignored and change nothing. |
| Scanner.AcceptedRepeatsSpaced | static/script.js:245-251 | Accepted reads of the same code are at least 4500 ms apart, both from the starting memory and from each other. |
| Page.PriceCheckPage.constructor | static/script.js:187-188 | The page starts with an empty field and the filter memory at `('', 0)`. |
| Page.PriceCheckPage.HandleSearch | static/script.js:175-184 | The login gate runs first. A cancel or unanswered prompt leaves the panels alone and sends nothing. Otherwise the panels are `fetchAndShow` of the trimmed field. |
| Page.PriceCheckPage.OnBarcodeDetected | static/script.js:241-258 | The memory steps by the repeat filter. A search runs if and only if the filter admits the detection, after the code is written into the field, with the same login outcome, gate state and panels as `HandleSearch`. A rejected detection changes nothing. |
| Page.PriceCheckPage.OnScanButton | static/script.js:282-290 | The scanner is started exactly when the login gate lets the user through. A login starts a session at the time of the accepted answer; any other outcome leaves the gate unchanged. |

## Left out

- The camera scanner itself (`startScanner`, `stopScanner` and Quagga's decoding) is a foreign library driving the camera. The model starts from the code Quagga reports.
- The server (`api.py`) is I/O over SQLite. Its answers are the `response` parameter, and `ApiRecord` stands for the record it returns.
- `alert` and `console.error` have no effect on state and are not modelled. The text of `window.prompt` is not modelled either; its answers are parameters.
- The scheduling of `setInterval` is not modelled: when ticks fire, and that the interval handle is replaced. `Tick` is one run of `update`, and `timerRunning` records whether an interval is installed.
- After a tick finds the session expired, the source calls `ensureSession` again. In the model that second login is the caller's next `EnsureSession`.
- Interleavings of the asynchronous handlers are not modelled, for example a second search starting while a prompt loop or a fetch is pending. Each handler runs to completion.
- One `now` stands for every `Date.now()` read within one handler run. The source reads the clock again in `setNewSession` and in the first `update`, and in `onBarcodeDetected` and the `hasValidSession` of the search it starts. A millisecond passing between two reads (a label of `29:59` right after login, say) is not modelled.
- The connection between `now` and `today` is not modelled: `Date.now()` and the local calendar date are independent parameters.
- The DOM elements other than the timer label and the barcode field are taken as present. Their `if (element)` guards only skip a write.
- The key and Enter wiring of the search button and the field is not modelled separately: both just call `handleSearch`.
- Session.ToNumber: only decimal integer texts with an optional sign are converted, and exactly; every other text is treated as not finite. JavaScript's `Number()` also accepts fractions, exponents, hexadecimal, binary, octal and `Infinity`. It also returns a double: digit strings above 2^53 are rounded, and from about 309 digits on they become `Infinity`, which `getSessionExpire` turns into 0. So for a stored entry the page did not write, such as 310 nines, the source reports no valid session while the model reports a live one. The page itself only ever stores integer timestamps far below 2^53.
- Text.NatToString: for n of 1e21 and above, JavaScript's `String(n)` uses exponent notation; the model always writes plain digits. Timestamps and the password never reach that range.
- Lookup.ToText: JSON numbers are integers. Fractional prices, and numbers whose `String()` uses exponent notation (magnitude 1e21 and above), are not rendered.
- Lookup.Member: object keys that are JavaScript's inherited properties, such as `__proto__` or `constructor`, are not modelled.
