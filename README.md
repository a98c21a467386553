# pickbray claim bot — a Dafny model of its decision logic

The bot (`run.js`) logs into a web portal, lists the WhatsApp numbers on offer,
claims each of them, records the claimed numbers in a MySQL table
(`pick_numbers`) so that a number already stored is not reported as new again,
and reports a summary to a Telegram chat. Almost all of `run.js` is I/O. This project models
the five pieces of sequential decision logic inside it, with every HTTP
response, login result, listing and Telegram send outcome given as an input:

- `ledger.dfy` (module `Ledger`): `saveNumbersToDatabase`: the batch is split
  into values the table already holds and new ones, counts are returned and the
  new ones inserted. The table is modelled as the set of stored `nomor` values.
- `cookies.dfy` (module `Cookies`): `updateCookies`: JavaScript's `split(';')` and
  `join`, the cookie pair of one `set-cookie` entry, and a `CookieJar` class
  whose `cookies` field is the global `cookies` string of `run.js`.
- `pickup.dfy` (module `PickUp`): `pickUpNumber`: `newTabOpenUrl.match(/\d+/)[0]`,
  the classification of errors (401/403, 422, anything else), and the retry
  after a successful re-login. The portal's answer to each attempt and the
  result of each re-login are given as two sequences.
- `messaging.dfy` (module `Messaging`): `sendMessageWithRetry`: a method with a
  counted loop over the outcomes of `bot.sendMessage`.
- `pick_loop.dfy` (module `PickLoop`): `processPickCommand`: the `while (true)`
  loop. Each iteration's observations are given as a `Round`: the first listing,
  the result of `assignNewNumber()`, and the second listing. Each listed `Row`
  carries what `pickUpNumber` resolved to for it. `Step` is one pass of the loop
  body, and `Loop` runs it over the given rounds. The imperative method
  `ProcessPickCommand` is proved equal to `Loop`. The ledger the loop writes to
  is the `Ledger` model.
- `wrappers.dfy` (module `Wrappers`): the `Option` type.

Four behaviours of the code are easy to misread, and the model keeps each of
them as written:

- After a 401/403 and a successful `login()`, `pickUpNumber` calls itself again
  with no limit (run.js:216-220). `PickUp.TwoExpiriesThenNumber` shows two
  expiries in a row still ending in a number.
- The empty-attempt counter grows both when `assignNewNumber()` fails and when
  it succeeds but the second listing is empty (run.js:363-369).
- The `pick_numbers` table has no UNIQUE constraint (run.js:58-64), and the
  filter checks only rows already stored (run.js:89-90). So a value repeated
  within one batch is counted new, and inserted, once per occurrence
  (`Ledger.RepeatsInBatchCountAsNew`).
- `sendMessageWithRetry` throws only when the last allowed attempt fails
  without a rate limit. When the last attempt is rate-limited it waits and
  returns normally (run.js:280-283).

## Model

| member | source | states |
|---|---|---|
| Ledger.SaveNumbers | run.js:88-109 | the two counts add up to the batch length, and the new count is the number of inserted rows |
| Ledger.NewNumbers | run.js:89-90 | never keeps more values than the batch holds |
| Ledger.NewNumbersMembers | run.js:89-90 | the kept values are exactly the batch values absent from the stored set |
| Ledger.NewNumbersAppend | run.js:90 | the filter distributes over concatenation, so kept values stay in batch order |
| Ledger.NewNumbersMultiplicity | run.js:90 | every occurrence of a value absent from the ledger is kept (in-batch repeats included), no occurrence of a stored value is |
| Ledger.NothingNewWhenAllStored | run.js:90 | a batch whose values are all stored keeps nothing |
| Ledger.SaveNumbersCounts | run.js:88-109 | successCount + duplicateCount == batch length; successCount is the number of inserted rows; inserted values are exactly the batch values not stored before; the ledger afterwards is the old ledger plus every batch value; no insert leaves the ledger unchanged |
| Ledger.AllStoredAreDuplicates | run.js:88-95 | a batch of already-stored values gives successCount 0, duplicateCount == length, no insert, ledger unchanged |
| Ledger.SaveTwice | run.js:88-109 | saving a batch and then the same batch again: the second save gives (0, length), inserts nothing, changes nothing |
| Ledger.RepeatsInBatchCountAsNew | run.js:88-93 | without a UNIQUE constraint, a new value twice in one batch counts 2 new, 0 duplicate, and is inserted twice |
| Cookies.Join | run.js:121 | `join(sep)` of no parts is `""`; otherwise it starts with the first part and is as long as the parts plus one separator between each two |
| Cookies.CookieHeader | run.js:121 | no `set-cookie` entries give `""`; otherwise the string starts with the first entry's pair |
| Cookies.Split | run.js:121 | `split(';')` gives at least one piece and no piece contains `;` |
| Cookies.JoinSplit | run.js:121 | joining the pieces of a split with `;` gives the string back |
| Cookies.SplitNoSemicolon | run.js:121 | a string without `;` splits into itself alone |
| Cookies.SplitAtSemicolon | run.js:121 | splitting `a;b` with `a` free of `;` gives `a` followed by the pieces of `b` |
| Cookies.SplitJoin | run.js:121 | pieces free of `;` joined with `;` split back into the same pieces |
| Cookies.CookiePair | run.js:121 | `cookie.split(';')[0]` is the prefix of the entry up to its first `;` (the whole entry when there is none) and holds no `;` |
| Cookies.PairIsFirstPiece | run.js:121 | the first piece of a split is a prefix ending at the first `;` or at the end |
| Cookies.Pairs | run.js:121 | one pair per `set-cookie` entry, in order, each that entry's pair |
| Cookies.Spaced | run.js:121 | each later pair carries the space of the `"; "` separator |
| Cookies.CookieHeaderSegments | run.js:121 | splitting the new cookie string at `;` gives exactly the entries' pairs in order, the later ones after one space, and nothing of the previous value |
| Cookies.SpacedJoin | run.js:121 | pieces free of `;` joined with `"; "` split back into the first piece and the space-prefixed rest |
| Cookies.EmptyListClearsCookies | run.js:119-121 | a present but empty `set-cookie` list yields the empty cookie string |
| Cookies.CookieJar.UpdateCookies | run.js:119-123 | with a `set-cookie` list, `cookies` becomes the `"; "`-join of the entries' pairs, replacing the old value; without one it is unchanged |
| PickUp.FirstDigitRunUnique | run.js:209 | the first maximal digit run of a string, and where it starts, is unique |
| PickUp.LeadingNonDigits | run.js:209 | the count of leading non-digits: all before it are non-digits, the one at it is a digit |
| PickUp.LeadingDigits | run.js:209 | the length of the leading digit run: all before it are digits, the one at it is not |
| PickUp.MatchDigits | run.js:209 | `match(/\d+/)` is null exactly when the string has no ASCII digit, and otherwise gives the first maximal run of digits |
| PickUp.PickUpNumber | run.js:185-232 | the claim stops at the first attempt that is not a 401/403 followed by a successful re-login; every earlier attempt was such an expiry, with one `login()` per earlier attempt; a number comes from the last attempt's verdict; a null comes either from a failed re-login after a 401/403 or from a last attempt that gave no number; Pending only while every attempt seen expired and every re-login seen succeeded |
| PickUp.Judge | run.js:208-230 | an attempt is read as no URL exactly when `newTabOpenUrl` is absent or `""`; as expired exactly on 401/403; as unavailable exactly on 422; as a number exactly when the URL is truthy and holds a digit; everything else gives null |
| PickUp.JudgeNumber | run.js:208-209 | a number verdict needs a present URL, and the number is non-empty, all digits and the URL's first digit run |
| PickUp.ClaimedNumberIsFirstDigitRun | run.js:208-210 | a claimed number is non-empty, all digits, and the first maximal digit run of the URL answered by the last attempt |
| PickUp.FalsyUrlGivesNull | run.js:208-214 | a missing or empty `newTabOpenUrl` gives null after one attempt and no re-login |
| PickUp.DigitlessUrlGivesNull | run.js:208-230 | a URL without digits makes `match` return null; the TypeError that follows gives null through the generic branch, with no re-login |
| PickUp.OtherErrorsNeverRelogin | run.js:225-230 | 422, any other status and a failure without a response give null after one attempt and never call `login()` |
| PickUp.FailedReloginGivesNull | run.js:216-224 | a 401/403 followed by a failed `login()` gives null after exactly one re-login |
| PickUp.ExpiryRetries | run.js:216-220 | a 401/403 followed by a successful `login()` gives the outcome of a fresh claim, one attempt and one login more |
| PickUp.TwoExpiriesThenNumber | run.js:216-220 | retries are not limited to one: 401, 403 and then a URL with digits give the number after 3 attempts and 2 logins |
| Messaging.IsRateLimit | run.js:280 | only an `ETELEGRAM` error is a rate limit, and a missing or zero `retry_after` (falsy in JavaScript) never makes one |
| Messaging.SendMessageWithRetry | run.js:274-291 | at most `retries` attempts, and fewer only after a delivery; delivered exactly when the last attempt was sent; thrown exactly when the last allowed attempt failed without a rate limit, with that error; a normal return without delivery only when no attempt was allowed or the last one was rate-limited; one pause after each failed attempt that did not throw, each `Pause`: `retry_after*1000` after a rate limit, `delay` otherwise |
| Messaging.SendMessage | run.js:274 | with the defaults every caller uses: one to three attempts, exactly three unless delivered; delivered exactly when the last attempt was sent; a normal return without delivery only after a rate-limited third attempt; a throw carries the third attempt's error; one pause after each failed attempt that did not throw, each `retry_after*1000` after a rate limit and one second otherwise |
| PickLoop.Numbers | run.js:345-361 | the rows to claim are empty exactly when the first listing is empty and replenishment failed or relisted nothing; otherwise they are the first listing, or the second one after a successful replenishment |
| PickLoop.Successful | run.js:377 | `filter(Boolean)` never keeps more values than there are results |
| PickLoop.SuccessfulMembers | run.js:377 | `filter(Boolean)` keeps exactly the results that are neither null nor empty |
| PickLoop.SuccessfulMultiplicity | run.js:377 | every occurrence of a truthy result is kept, repeats included, and no null or `""` is |
| PickLoop.SuccessfulAppend | run.js:377 | the filter distributes over concatenation, so kept results stay in claim order |
| PickLoop.Step | run.js:345-383 | one iteration never decreases the totals; with nothing to claim it only adds one to the counter; with rows to claim it resets the counter to 0 |
| PickLoop.LoopBounds | run.js:339-384 | a logged-in run never ends in a login failure; it runs at most one iteration per round, all of them when the rounds run out, and it breaks only with the counter at MAX_EMPTY_ATTEMPTS |
| PickLoop.ProcessPickCommand | run.js:332-392 | the loop runs only after a successful login (a failed one gives LoginFailed and nothing else); from then on the imperative loop ends exactly as `Loop` over the rounds from zero counters, so every lemma about `Loop` holds of it |
| PickLoop.StepCounter | run.js:341-372 | the counter resets to 0 exactly when an iteration ends with rows to claim (directly or after a successful replenishment), and otherwise grows by exactly 1 |
| PickLoop.LoopFollowsCounter | run.js:341-372 | whether and where the run breaks depends on the empty-attempt counter alone, not on totals or ledger |
| PickLoop.CounterBreaksAtSecondEmpty | run.js:341-372 | the counter reaches MAX_EMPTY_ATTEMPTS exactly at the first iteration that is the second of two consecutive empty ones |
| PickLoop.LoopStopsAtSecondEmpty | run.js:341-372 | the loop breaks exactly at the first iteration that is the second of two consecutive iterations with nothing to claim, with the counter at 2; when the rounds run out first, no such pair occurred |
| PickLoop.TwoEmptyRoundsEndTheRun | run.js:345-369 | two empty iterations at the start end the run after two iterations, with totals 0 and the ledger untouched |
| PickLoop.ReplenishedRoundClaims | run.js:347-372 | an empty listing, a successful replenishment and a non-empty second listing go on to claiming, not to the end |
| PickLoop.StepTotals | run.js:374-383 | the claimed numbers are `Successful(Results(Numbers(r)))`, one result per listed row in row order, then filtered; one iteration never decreases the totals; it adds the ledger's two counts, whose sum is the number of claimed numbers, and stores those numbers; an all-null or empty iteration changes nothing |
| PickLoop.LoopTotals | run.js:339-384 | over a run, the totals never decrease, sum to the number of numbers claimed in the iterations that ran, and the ledger ends as the old one plus those numbers |
| PickLoop.ThreeRowsScenario | run.js:374-383 | three rows claiming a, null and c against an empty ledger give 2 new and 0 duplicates; the same iteration again gives 2 more duplicates |

## Left out

- HTTP requests, redirects and status handling through axios (run.js:133-149, 168-170, 187-205, 237-256). Each response is an input: an `Attempt` for a claim, a boolean for `login()` and for `assignNewNumber()`, and a list of rows for `getWaNumbers()`.
- HTML parsing with cheerio: the `getCSRFToken` function and the extraction of table rows (run.js:125-128, 172-177). Anti-forgery tokens play no part in any decision, and the listing is given as rows.
- `getWaNumbers` returning `[]` on a failed fetch (run.js:179-182) is covered, because an empty listing is an input. The model, like the code, cannot tell that case apart from a truly empty listing.
- The MySQL pool, connections, `CREATE TABLE` and SQL text (run.js:30-76, 80-86, 102). Only the set semantics of the membership query and the insert are kept.
- Database errors thrown by `saveNumbersToDatabase` (run.js:111-113). The catch in `processPickCommand` that sends an error message (run.js:388-391) is also out. The model has no failing ledger.
- UUIDs and timestamps of inserted rows (run.js:96-100). They are random or clock-dependent and do not affect the counts.
- The Telegram bot, `main`, process handlers, `log` and colours (run.js:7, 11, 13-28, 394-419). All of these are I/O.
- `createSummaryMessage` and `formatNumber` (run.js:293-330). They use locale and date formatting, `Math.random` and floating-point `toFixed`. The model's `Finished` outcome carries the two totals they would print.
- The sending of the login-failure and summary messages by `processPickCommand` (run.js:335, 387). `Messaging.SendMessageWithRetry` models that call on its own.
- The `sleep` timing (run.js:272). Only the chosen pause length is recorded.
- The race on the shared `cookies` between overlapping runs and concurrent claims. This is concurrency. `Promise.all` (run.js:374-375) is modelled as an in-order map, since each row's claim result is given per row.
- The value of `cookies` before any `set-cookie` header has been seen. In `run.js` it is an undeclared global. `Cookies.CookieJar` starts it as `""`.
- Values of `newTabOpenUrl` that are truthy but not strings, and `ETELEGRAM` errors without a `response`. Both would raise a TypeError, and neither is modelled.
- The loop does not run `PickUp.PickUpNumber` on each row. Each row carries the result its claim resolved to.
- PickUp.PickUpNumber: the unbounded retry of run.js:220 is cut off when the given responses or re-login results run out. The outcome is then `Pending`, where the source would go on retrying.
- PickLoop.ProcessPickCommand: the `while (true)` loop of run.js:344 runs for at most as many iterations as there are rounds given. It ends in `OutOfRounds` where the source would keep looping. Termination in general is not claimed.
- Messaging.SendMessageWithRetry: it requires one transport outcome per attempt that may be made (`retries <= |outcomes|`).
