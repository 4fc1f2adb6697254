# AverageList, modelled in Dafny

AverageList is a userscript for an AniList anime or manga list page. Once the list has been scrolled to its end, it walks the list's sections in document order and does one of three things to each released entry:

- **Planning sections.** An entry in a section whose name contains `Planning` that shows a leftover score gets that score reset to 0, unless its text already reads as 0 under `parseInt` (`0`, `0.5`, `-0`, `0x0`).
- **Other sections.** An entry that shows no score gets a score fetched from the AniList GraphQL API and typed into the list editor: the media's average score, or its mean score when there is no average, or 50 when there is neither or the requests keep failing.
- **Everything else** is left alone.

The fetch and the editor interaction both retry with capped exponential backoff.

This project models that core as pure functions over immutable data. It proves what the script does to the list for every page snapshot, every network behaviour and every editor behaviour. The page is read as one snapshot that the script's own writes do not change (see "## Left out"). The page and the outside world are replaced by data:

- **The page:** a sequence of `Section`s. Each has its optional name and its entries. Each `Entry` has:
  - the `NOT_YET_RELEASED` marker;
  - the hrefs of its title links;
  - its optional score element (text and `score` attribute).
- **The network, for each entry:** the sequence of outcomes its score requests meet: a 429, a thrown error, or an answer with optional `averageScore` and `meanScore`.
- **The editor, for each update attempt:** what it finds, meaning the edit button, the number input and the save button.
- **Time:** every `wait(ms)` is recorded as a returned delay.

The files follow the script's structure:

| file | module | what it holds |
|---|---|---|
| `wrappers.dfy` | `Wrappers` | `Option` |
| `js_text.dfy` | `JsText` | `String.prototype.trim`, `startsWith`, `includes` |
| `js_number.dfy` | `JsNumber` | `parseInt` (no radix) and `Number.prototype.toString` for integers |
| `href.dfy` | `Href` | list kind from the path, the type path, the first matching title link, and the id captured by `<path>(\d+)/` |
| `backoff.dfy` | `Backoff` | the two `min(base * 2^(a-1), cap)` delay schedules |
| `fetch_score.dfy` | `ScoreFetch` | `fetchScore` |
| `score_update.dfy` | `ScoreUpdate` | `update` |
| `list_page.dfy` | `ListPage` | the per-entry decision and the plan of the whole main loop |
| `script.dfy` | `Script` | carrying out the plan against the network and the editor |
| `properties.dfy` | `ScriptProperties` | what a whole run does and does not do |

A run is `Script.Run(pathname, sections, world)`. It plans one `Decision` per released entry (`Skip`, `SetScore(0)` or `FetchThenSet(id)`). It then performs the non-skipped decisions in order, each as an `Effect`: the fetch if there was one, the value written, and the record of the update. A run stops early (`finished == false`) only when the given outcomes or observations run out while the script would still be waiting.

## Model

| member | source | states |
|---|---|---|
| `JsText.Trim` | AverageList.js:93 | The trimmed text is the input minus exactly its leading and trailing whitespace. It neither starts nor ends with whitespace, and it is empty exactly when the input is all whitespace. |
| `JsText.Includes` | AverageList.js:96 | `includes` is true exactly when the substring occurs at some position. |
| `JsNumber.ScanNumeral` | AverageList.js:98 | What `parseInt` reads: a numeral whose digits all belong to its radix, 10 or 16, and which is negative only if the text holds a `-`. `ScanNumeralSpec` determines it completely. |
| `JsNumber.ScanNumeralSpec` | AverageList.js:98 | The scan is exactly the numeral `parseInt` reads, in both directions. The text splits as all of its leading whitespace, then at most one sign, with the numeral negative exactly when that sign is `-`. Next comes the `0x`/`0X` prefix exactly when the radix is 16, then the longest run of digits of that radix, then a rest that is empty or starts with a non-digit. |
| `JsNumber.ParseInt` | AverageList.js:98 | `parseInt(txt)` is NaN exactly when no digits follow the optional sign and hex prefix. It is 0 exactly when those digits are all `0`, so a leading `-0` is 0. A negative result needs a `-`. |
| `JsNumber.NumberToString` | AverageList.js:39 | The typed text of a score starts with `-` exactly when the score is negative. The rest is a non-empty run of decimal digits, with a leading `0` only for the score 0 itself. |
| `JsNumber.ParseIntOfNumberToString` | AverageList.js:39 | The text typed for a score, `s.toString()`, reads back as `s`. |
| `JsNumber.NatToStringValue` | AverageList.js:39 | The decimal digits typed for a non-negative score denote that score. |
| `Href.KindOf` | AverageList.js:3-5 | The list is an anime list exactly when `animelist` occurs in the path. |
| `Href.FindLink` | AverageList.js:87 | No link is found exactly when no title href starts with the type path. Otherwise the first such href is returned. |
| `Href.ExtractId` | AverageList.js:89 | No id exactly when `<path>(\d+)/` matches nowhere. Otherwise the id is the capture of the leftmost match, a non-empty run of ASCII digits. |
| `Href.CaptureIsWholeRun` | AverageList.js:89 | A match captures the whole digit run after the path, so greedy matching and backtracking agree. |
| `Href.Locate` | AverageList.js:87-90 | The lookup reports a missing link exactly when no title href starts with the type path. A found id is a non-empty digit string. |
| `Href.LocateSpec` | AverageList.js:87-90 | The id is missing exactly when the first href under the type path has no `<path><digits>/` match. A found id is that href's leftmost capture. |
| `Href.LocateMediaLink` | AverageList.js:55-57 | When the first title link is `<path><digits>/<anything>`, the id read back is exactly those digits, whatever follows and whatever links come later. |
| `Backoff.CappedDelay` | AverageList.js:20 | The delay is the smaller of `base * 2^(a-1)` and the cap: at most each of them, and equal to one of them. |
| `Backoff.CappedDelayShape` | AverageList.js:20 | A capped doubling delay starts at its base, never decreases with the attempt number, and never exceeds its cap. |
| `Backoff.CappedDelaySaturates` | AverageList.js:60 | Once a capped doubling delay reaches its cap, it stays there for every later attempt. |
| `Backoff.FetchDelay` | AverageList.js:20 | Every fetch delay lies between 100 and 5000 ms. |
| `Backoff.FetchCapReached` | AverageList.js:20 | The fetch delay reaches its 5000 ms cap exactly from the seventh attempt on. |
| `Backoff.FetchDelaySchedule` | AverageList.js:20 | The fetch delays are 100, 200, 400, …, 3200 ms, then 5000 ms from attempt 7 on. They are never decreasing and never above 5000. |
| `Backoff.UpdateDelaySchedule` | AverageList.js:60 | The update delays are 1000 ms on attempt 1 and 2000 ms on attempts 2 and 3. |
| `Backoff.UpdateDelay` | AverageList.js:60 | The update delay is 1000 ms on the first attempt and 2000 ms on every later one. |
| `ScoreFetch.ScoreOf` | AverageList.js:30-32 | An answer yields `averageScore` if present, else `meanScore` if present, else 50. A final error yields 50. |
| `ScoreFetch.FetchScoreFrom` | AverageList.js:17-34 | Request `i` waits the fetch delay of attempt `a + i`. The call keeps retrying exactly as long as every outcome so far is a 429, or an error before attempt 3. When it settles, it is on the first outcome that ends the retries, and it returns that outcome's score. |
| `ScoreFetch.FetchScore` | AverageList.js:103 | The same, from attempt 1 as the main loop calls it. |
| `ScoreFetch.ThrottlingHasNoCeiling` | AverageList.js:28 | After any number of 429 responses, an answer is still taken and its average returned, 0 included, after one wait per request. |
| `ScoreFetch.ErrorsGiveUpAtThirdAttempt` | AverageList.js:32 | Three errors in a row yield 50 after waits of 100, 200 and 400 ms, whatever would have come next. |
| `ScoreFetch.ZeroScoreIsKept` | AverageList.js:30 | A zero average, or a zero mean when the average is missing, is returned as is. |
| `ScoreUpdate.AttemptsFrom` | AverageList.js:60-74 | Each attempt retries only after finding the edit button but not both editor controls. There are at most 3 attempts. A missing edit button ends the call. Giving up happens only on attempt 3. Saving needs all three controls. Every typed text is the score's decimal text, and no wait exceeds 2000 ms. |
| `ScoreUpdate.AttemptsFromSchedule` | AverageList.js:60-74 | For every list of observations, attempt `a + j` contributes exactly its own waits and typed text, in order. Without the edit button there are none. With it there is `UpdateDelay(a + j)` after the click. With the number input there are 50 ms per character and 1000 ms after typing, and one typed text. With the save button too there is `UpdateDelay(a + j)` after saving. |
| `ScoreUpdate.Update` | AverageList.js:54-75 | A missing link or id ends the call on its first attempt, with no wait and no typing, exactly when the lookup fails that way. Otherwise it behaves as the attempts above, giving up only on the third attempt. |
| `ScoreUpdate.ThreeObservationsSuffice` | AverageList.js:67-72 | With three attempts' observations the call always ends in one of the script's own outcomes. |
| `ScoreUpdate.SavedOnFirstAttempt` | AverageList.js:60-74 | An editor that renders at once is typed into, then saved: waits of 1000 ms, 50 ms per character, 1000 ms and 1000 ms. |
| `ScoreUpdate.GivesUpAfterThreeAttempts` | AverageList.js:66-67 | A number field that never appears is looked for three times, with waits of 1000, 2000 and 2000 ms. Nothing is typed, and then the call gives up. |
| `ListPage.Decide` | AverageList.js:87-103 | An entry without a link under the type path or without an id is skipped. Zeroing writes 0 and happens only in a Planning section. A fetch happens only outside Planning, and uses the id of the entry's own link. |
| `ListPage.DecideSpec` | AverageList.js:92-103 | An entry is zeroed exactly when its section name includes `Planning` and it has an id and shows a score whose text does not parse to 0. That includes text that parses to NaN. A score is fetched with the entry's own id exactly when the section is not Planning and the entry has an id and shows no score. Every other entry is skipped. |
| `ListPage.SectionPlan` | AverageList.js:83-86 | A section yields exactly one decision per released entry and none for unreleased ones, in entry order. Each is the decision of the main loop. |
| `ListPage.PlanUpTo` | AverageList.js:81 | The first `m` sections yield decisions in document order, covering every released entry of those sections. |
| `ListPage.Plan` | AverageList.js:78-105 | The whole loop yields decisions for released entries only. It covers every released entry, in strict document order, and yields nothing when there are no sections. |
| `Script.Acting` | AverageList.js:96-103 | The decisions that lead to a write are exactly the plan's non-skip decisions. |
| `Script.ActingKeepsOrder` | AverageList.js:86 | Dropping the skipped decisions keeps document order. |
| `Script.Perform` | AverageList.js:99-103 | A completed entry records its own decision. Its update ended in one of the script's own outcomes, and every text typed is the written value. |
| `Script.PerformSpec` | AverageList.js:96-103 | A Planning entry is written 0 with no fetch. Any other entry is written the score its fetch settled on. The update always finds the link and the id, and it types the written value. |
| `Script.PerformCompletes` | AverageList.js:99-103 | Acting on an entry always completes when its fetch settles and the editor has three attempts' observations. |
| `Script.PerformStuck` | AverageList.js:99-103 | Acting on an entry is cut short only by a fetch that never settles or by fewer observations than three attempts need. |
| `Script.UntilStuck` | AverageList.js:99-103 | Each entry is awaited before the next. The effects kept are those before the first entry the world does not see through, and the run has finished exactly when there is no such entry. |
| `Script.Execute` | AverageList.js:81-105 | The effects are the performances of the acting decisions, in order. The run finishes exactly when all of them were performed. Otherwise it stops at the first one the world does not see through. |
| `Script.Run` | AverageList.js:78-105 | A run acts at most once per acting decision of the plan, and finishes exactly when it has acted on all of them. |
| `ScriptProperties.EffectsArePerformedDecisions` | AverageList.js:81-104 | Each effect of a run belongs to a non-skip decision the main loop takes for a released entry. |
| `ScriptProperties.ExecutedDecisions` | AverageList.js:81-104 | The same for carrying out any sequence of the main loop's decisions. |
| `ScriptProperties.NoSectionsNoEffects` | AverageList.js:79 | With no sections, a run does nothing and finishes. |
| `ScriptProperties.EffectsFollowDocumentOrder` | AverageList.js:81-86 | Entries are acted on in document order, so none twice. |
| `ScriptProperties.PerformedEffectIsEligible` | AverageList.js:87-103 | Acting on a decision touches only a released entry that has a link and an id. In Planning it writes 0 into an entry showing a nonzero score, without a fetch. Elsewhere it writes exactly the fetched score into an entry showing none, and it types the written value. |
| `ScriptProperties.EffectsOnlyOnEligibleEntries` | AverageList.js:81-103 | The same holds for every effect of a whole run. |
| `ScriptProperties.PlanningWritesOnlyZero` | AverageList.js:96-100 | In a Planning section the only value written is 0, never fetched, and the only text typed is `0`. |
| `ScriptProperties.FinishedRunActsOnEveryEligibleEntry` | AverageList.js:81-104 | A finished run acts on every released entry whose decision is not to skip, and on each exactly once. |
| `ScriptProperties.ObservedWorldFinishes` | AverageList.js:99-103 | A run finishes whenever every fetch meets an outcome that ends its retries and every update has three observations. |
| `ScriptProperties.ScoredListIsLeftAlone` | AverageList.js:102 | A list with no Planning section, whose identified entries all show a score, gets no fetch and no write, whatever the network and editor do. |

## Left out

- Scrolling to the end of the list (`autoScroll`, lines 7-15) is left out. The sections given are the fully loaded list.
- `click`, the focus, input and change events of `type`, and every `querySelector` are left out. Their results are the inputs: entry fields and editor observations.
- The `fetch` call, the GraphQL query text with its `ANIME`/`MANGA` type, `parseInt(id)` for the variables, and JSON decoding are left out. The network is a per-entry sequence of outcomes. A non-429 status whose body parses to a JSON value other than `null` is an answer, and a null `data` or `Media` in it is an answer with both fields absent. A `null` body makes `j.data` throw at line 30, so it is an error, like a failed request or a body that is not JSON.
- Time is left out. Every `wait` is a recorded delay, and nothing is modelled about concurrency with the page's own scripts.
- Finite inputs: the network and the editor are finite sequences. `FetchScore` ends in `Pending` and `Update` in `Unobserved` when they run out while the script would still be retrying. These two outcomes belong to the model, not the script. A run that meets either stops there.
- `l.href` is the absolute URL that the browser resolves from the attribute, but the model applies the id regex to the attribute as written. URL resolution is not modelled. That covers the origin in front, dot segments (`/anime/1/../2/` resolves to `/anime/2/`), backslashes read as `/`, and stripped tabs and newlines. For an attribute such as `/anime/<digits>/…` with none of these, the leftmost match is the same, because the origin holds no `/anime/` or `/manga/` followed by digits.
- A title anchor without an `href` attribute makes the script throw in `startsWith`. Links are modelled as strings, so that crash is not modelled.
- The page is one snapshot. The script reads each section name (line 82), its released entries (line 83) and each entry's links and score cell (lines 87-94) only when the loop reaches them, after earlier `update` calls may have changed the page. The model takes all of them from the page as it was before the first write, and assumes the script's own writes change none of them.
- Links are re-read on every `update` attempt. They do not change between attempts, so the model reads them once.
- `JsNumber.NumberToString`: only integer formatting is stated. Scores are integers, and the exponent form of `toString` above 1e21 is not modelled.
- `JsNumber.ParseInt`: the value is kept as an exact integer, not rounded to a double. Rounding never turns a nonzero value into 0, and the script compares the value only with 0.
- Sections with no released entries produce no decisions. This matches the script's early `continue` at line 84.
- The script keeps no persistent progress, rate-window limiter or score cache, and neither does the model.
