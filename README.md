# Smart Zetamac Coach — a verified model of its capture and analytics core

Smart Zetamac Coach is a browser extension for the Zetamac arithmetic drill.
This project models its two pieces of logic and proves properties about them.

The first piece is the **content script**. It watches the drill page and records
every problem as an *Attempt*. An Attempt holds:

- the prompt text;
- the operation and both operands, parsed from the prompt;
- the printed width of each operand;
- the answer typed;
- every keystroke;
- the number of corrections (Backspace keystrokes);
- the time the prompt appeared and the time it was replaced.

The attempts of one timed run form a *Session*. The session is appended to a
stored list once, when the countdown reaches 0. Leaving the page drops it.

The second piece is the **dashboard**. It handles all stored sessions as one
list of attempts:

- It averages the time per problem overall and per operation (add, sub, mul,
  div), and sorts the operations slowest first.
- It groups the attempts into *time buckets*, one per operation and pair of
  operand widths. Each bucket keeps its running operand bounds, total time and
  count.
- It sorts the buckets by average time and shows the five slowest.
- For each of those five it suggests drill settings: the operand ranges of the
  drill page's "addition/subtraction" and "multiplication/division" groups that
  produce problems of that shape.

## Files

| file | module | contents |
|---|---|---|
| `wrappers.dfy` | `Wrappers` | `Option` |
| `records.dfy` | `Records` | operations, JavaScript numbers (`NaN` or an integer), keystrokes, attempts, sessions |
| `text.dfy` | `Text` | the string operations the source relies on: `trim`, `split(" ")`, `Number()` on digit strings, the first `/\d+/` run, decimal printing |
| `capture.dfy` | `Capture` | the content script (see below) |
| `sorting.dfy` | `Sorting` | a stable sort from the largest key to the smallest, the sort both `sort` calls perform |
| `analytics.dfy` | `Analytics` | flattening, averages, `opTimes`, the `timeBuckets` loop, `bucketRates`, the top five |
| `ranges.dfy` | `Ranges` | `digitMin`, `digitMax`, `clamp`, `clampDiv` and the four per-operation rules |
| `dashboard.dfy` | `Dashboard` | the page as a whole: empty page, or figures and drill suggestions |

### The content script

The closure variables of the `load` handler are modelled twice:

- as a value of the datatype `CaptureState`, with one pure function per
  handler (`Attach`, `Input`, `Observe`/`Mutations`, `Poll`, `Unload`);
- as the mutable fields of the class `Capture.Tracker`.

Each method of `Tracker` ensures that its new state is the function applied
to its old state. The stored session list is a sequence field that
`CheckSessionEnd` appends to. It holds each session as the JSON store returns
it: a NaN operand comes back as 0 (see "## Left out").

Handlers take the values they read from the page as parameters:

- the prompt text, or `None` when there is no prompt element;
- `e.data` and the answer field's value;
- the timer text;
- whether an answer field was added or exists;
- `Date.now()`, passed as `now`.

Traces are sequences of `Event`s handled by `Run`. The trace lemmas use them.

### The dashboard

The dashboard is mixed:

- The flattening, the averages and the sorts are functions.
- The `timeBuckets` loop is the method `Analytics.TimeBuckets`. It is proved
  equal to a function, `Aggregate`, that builds the same record one attempt at
  a time. `Aggregate` is proved, in turn, to equal an independent description:
  each bucket is the `Summary` of exactly the attempts with its key.
- The range rules are the method `Ranges.SuggestRanges`. It creates the two
  default range objects (`RangeBox`) and overwrites their fields the way the
  source does. It is proved to produce `AddSubFor`/`MulDivFor`, and the
  properties of the rules are lemmas about those two functions.

### Behaviour of the code worth knowing

- **The keystroke buffer is not emptied when a prompt closes.** Only
  re-attaching the listener empties it (`public/content.js:23`). An Attempt
  therefore holds every keystroke since the last attach. That includes
  keystrokes typed before its prompt appeared.
  `Capture.ScenarioBufferCarriesOver` exhibits one such Attempt.
- **A previous prompt with fewer than two spaces is never closed out.** For such
  a prompt, `rawB.length` throws at `public/content.js:64`, so nothing after it
  runs. The model returns the outcome `Malformed` and leaves the state
  unchanged. `Capture.MalformedPromptSticks` shows that such a prompt stays
  `lastPrompt` for the rest of the page's life. No further Attempt is then
  recorded.
- **Division 3×1 gives quotients 50–100.** `floor(999 / 9)` is 111, and it is
  clamped to 100 (`Ranges.DivThreeByOne`).
- **The fallback of the division rule is never taken.** The clamped smallest
  quotient never exceeds the clamped largest one, so the branch at
  `src/dashboard.tsx:183-184` cannot run (`Ranges.DivQuotientsOrdered`, `Ranges.DivNeverFallsBack`). The
  model keeps the branch, as the code does.
- **The division rule is a heuristic.** Its divisor range is the digit range
  of the divisor width clamped to 2..12, so it matches that width only for
  one- and two-digit divisors: a three-digit divisor bucket suggests the
  divisor 12 alone (`Ranges.DivClampedExamples`). Not every problem the rule
  was built from lies in its suggested range: 108 ÷ 9 is a 3×1 problem whose
  quotient, 12, is below the range (`Ranges.DivRangeMissesSmallQuotients`).
  Nor does every suggested problem have a dividend of the bucket's width: a
  4×1 bucket suggests divisors 2–9 and the quotient 100 alone, and 2 × 100
  has three digits. What holds in general is `Ranges.DivRangeDividends`: a
  suggested divisor times a suggested quotient has at
  least dA digits unless clamping lowered the smallest quotient to 100, and at
  most dA digits unless clamping raised the largest quotient to 2.

## Model

| member | source | states |
|---|---|---|
| Text.Trim | public/content.js:53 | `trim()`: the white space of both ends cut off. No contract of its own; `Text.TrimSpec` states what it returns. |
| Text.JsNumber | public/content.js:63 | `Number()` on an operand word: 0 for an empty or all-white-space word, the decimal value of a run of ASCII digits, NaN otherwise. No contract of its own; `Text.NumberOfDecimal` states its round trip with printing. |
| Text.TrimSpec | public/content.js:53 | `trim()` removes a run of white space from each end and nothing else. The result neither starts nor ends with white space. It is empty exactly when the text is all white space. |
| Text.Split | public/content.js:58 | `split(" ")` returns one more piece than there are spaces. No piece contains a space, and joining the pieces with spaces gives back the text. |
| Text.SplitJoin | public/content.js:58 | Splitting a join of space-free pieces returns exactly those pieces. |
| Text.NumberOfDecimal | public/content.js:63 | `Number()` of a printed whole number is that number. |
| Text.DecimalRoundTrip | public/content.js:99 | Reading back the decimal digits of a number gives the number. |
| Text.DecimalWidth | public/content.js:64 | A positive number printed with w digits lies between 10^(w-1) and 10^w - 1. |
| Text.FirstDigitRun | public/content.js:98 | `match(/\d+/)` finds nothing exactly when the text has no digit. Otherwise it finds a non-empty run of digits. The run starts after a digit-free prefix and extends as far as the digits go. |
| Capture.KeyOf | public/content.js:27 | The key recorded for input data: `Backspace` when the data is null, the data itself otherwise. No contract of its own; `Capture.InputCountsCorrections` states that a null-data event adds exactly one correction. |
| Capture.NumErrors | public/content.js:65 | `keystrokes.filter(k => k.key === "Backspace").length`. Its own contract only bounds it by the buffer's length; `Capture.NumErrorsCounts` states exactly what it counts. |
| Capture.OpOfGlyph | public/content.js:59-62 | The glyph chain: `×` is mul, `÷` div, `+` add and any other word sub. No contract of its own; `Capture.GlyphRoundTrip` states that it inverts the page's glyphs. |
| Capture.NumErrorsCounts | public/content.js:65 | An Attempt's correction count equals the number of buffered keystrokes whose key is `Backspace`. |
| Capture.NoBackspaceNoErrors | public/content.js:65 | A buffer without `Backspace` keys has no corrections. |
| Capture.ParsePrompt | public/content.js:58-64 | A prompt can be parsed exactly when it has at least two spaces, that is, when it has a third word. |
| Capture.GlyphRoundTrip | public/content.js:59-62 | `×` reads as mul, `÷` as div and `+` as add. The en dash the page prints for subtraction reads as sub. |
| Capture.SplitRender | public/content.js:58 | A prompt `"a op b"` as the page prints it splits into its three words. |
| Capture.ParseRender | public/content.js:58-64 | Parsing a printed prompt `"a op b"` recovers the operation, `Number(a)` and `Number(b)`, and the printed widths of `a` and `b`. |
| Capture.CloseOut | public/content.js:58-77 | The Attempt record built when a prompt is closed out. No contract of its own; `Capture.TransitionAppendsOne` states each of its fields and `Capture.AttemptParsesPrompt` ties operation, operands and widths to its prompt's words. |
| Capture.Start | public/content.js:7-37 | The state the `load` handler sets up: no prompt, no answer, an empty buffer, no attempts, an active session started at `now`, the stored list as given, then the first attach. No contract of its own; `Capture.StartTimeOrdered` states its properties. |
| Capture.Attach | public/content.js:19-24 | `attachInputListener`. No contract of its own; `Capture.AttachResets` states the whole new state. |
| Capture.Input | public/content.js:25-35 | The input listener. No contract of its own; `Capture.InputAppendsOne` and `Capture.InputCountsCorrections` state the new state. |
| Capture.Observe | public/content.js:51-85 | The prompt part of the mutation observer. No contract of its own; `Capture.ObserveIgnored`, `Capture.FirstPromptOnlyBegins`, `Capture.TransitionAppendsOne`, `Capture.MalformedChangesNothing` and `Capture.ObserveFrame` state its cases. |
| Capture.Mutations | public/content.js:39-85 | One observer callback: the re-attach of lines 40-49, then the observation. No contract of its own; `Capture.ReattachBeforeClose` states what the order of the two means. |
| Capture.Poll | public/content.js:94-111 | `checkSessionEnd`. No contract of its own; `Capture.PollPersistsOnce` states the whole new state and the flag. |
| Capture.Unload | public/content.js:114-117 | The `beforeunload` handler. No contract of its own; `Capture.UnloadNeverPersists` states its consequence. |
| Capture.ObserveIgnored | public/content.js:51-55 | An observation is ignored exactly when there is no prompt element, the trimmed text is empty, or it equals `lastPrompt`. An ignored observation changes nothing. |
| Capture.FirstPromptOnlyBegins | public/content.js:55-84 | The first non-empty prompt records no Attempt. It only sets `lastPrompt`, `lastAnswer := ""` and `promptStart := now`, and it keeps the keystroke buffer. |
| Capture.TransitionAppendsOne | public/content.js:56-84 | A change from a parseable `lastPrompt` appends exactly one Attempt to the end of `sessionAttempts`. The Attempt has the old prompt, answer and whole keystroke buffer, its correction count, `startTs` = old `promptStart` and `endTs` = `now`. `lastPrompt`, `lastAnswer` and `promptStart` become the new prompt, `""` and `now`. The buffer is kept. |
| Capture.AttemptParsesPrompt | public/content.js:58-77 | Every Attempt's operation, operands and widths are those of the words of its own prompt split on spaces. |
| Capture.MalformedChangesNothing | public/content.js:58-64 | A change away from a `lastPrompt` with fewer than two spaces changes no state. |
| Capture.ObserveFrame | public/content.js:51-85 | A prompt observation never changes the buffer, the listener, the session flag, the session start or the store. It changes `sessionAttempts` only when it closes out an Attempt. |
| Capture.ReattachBeforeClose | public/content.js:40-53 | When an answer field was added in the same callback, the Attempt closed out by it has no keystrokes and no corrections. |
| Capture.InputAppendsOne | public/content.js:25-35 | An input event appends exactly one keystroke record, with `delta = now - promptStart` and the field's value, and sets `lastAnswer` to that value. Nothing else changes. |
| Capture.InputCountsCorrections | public/content.js:27-33 | An input event adds one correction exactly when its data is null or is the text `Backspace`. |
| Capture.AttachResets | public/content.js:19-24 | Attaching to an existing answer field empties the buffer and sets the listener flag, and changes nothing else. Without an answer field the whole state is unchanged. The attempts are never touched. |
| Capture.TimerAtZero | public/content.js:98-100 | The test `parseInt(match[0], 10) === 0` on the first digit run of the countdown, false when there is none. No contract of its own; `Capture.TimerAtZeroMeaning` states it. |
| Capture.TimerAtZeroMeaning | public/content.js:98-100 | The countdown reads 0 exactly when its text has a run of digits and the first such run consists of zeros only. |
| Capture.PollPersistsOnce | public/content.js:94-110 | A poll ends the session exactly when there is a timer, the session is active and the timer reads 0. It then clears the flag and appends `{sessionStartTs, now, sessionAttempts}` to the end of the store. Otherwise it changes nothing. |
| Capture.StepSession | public/content.js:94-117 | No event makes the session active again. Only a timer poll of the active session changes the store, and it appends that one session. |
| Capture.InactiveStaysInactive | public/content.js:94-117 | Once the session is inactive, no sequence of events reactivates it or changes the store. |
| Capture.UnloadNeverPersists | public/content.js:114-117 | After `beforeunload`, the attempts are empty and no later event stores anything. |
| Capture.AtMostOneSession | public/content.js:94-110 | Over any sequence of events, the store keeps its earlier sessions as a prefix. It grows by at most one session, and only if the session was active. |
| Capture.NoAttemptBeforeFirstPrompt | public/content.js:55-80 | While no prompt has been seen there are no attempts, and once one has been seen `lastPrompt` never becomes empty again. |
| Capture.MalformedPromptSticks | public/content.js:58-64 | A `lastPrompt` that cannot be parsed stays `lastPrompt` for the whole trace. The attempts either stay as they are or are dropped by an unload. |
| Capture.MalformedEmptyStaysEmpty | public/content.js:58-64 | After an unparseable first prompt, no Attempt is ever recorded. |
| Capture.ObserveTimeOrdered | public/content.js:51-85 | An observation keeps the state's timestamps consistent with the clock. |
| Capture.StepTimeOrdered | public/content.js:25-117 | Handling one event no earlier than the clock keeps the state's timestamps consistent. |
| Capture.RunTimeOrdered | public/content.js:25-117 | Over any sequence of events, provided the clock does not go back, the state's timestamps stay consistent. Keystrokes are in recording order with non-negative deltas. Every Attempt has `startTs <= endTs`, keystrokes no later than its end, and its correction count. |
| Capture.StartTimeOrdered | public/content.js:7-14 | The initial state has no prompt, no attempts, an active session and consistent timestamps. |
| Capture.Tracker.constructor | public/content.js:7-14 | The initial closure state, followed by the first listener attach. |
| Capture.Tracker.AttachInputListener | public/content.js:19-24 | The fields change as `Attach` says. |
| Capture.Tracker.OnInput | public/content.js:25-35 | The fields change as `Input` says. |
| Capture.Tracker.ObservePrompt | public/content.js:51-85 | The fields and the outcome are those of `Observe`. |
| Capture.Tracker.OnMutations | public/content.js:39-85 | The fields and the outcome are those of `Mutations`: a re-attach if an answer field was added, then the prompt observation. |
| Capture.Tracker.CheckSessionEnd | public/content.js:94-111 | The fields and the flag are those of `Poll`. |
| Capture.Tracker.OnBeforeUnload | public/content.js:114-117 | The fields change as `Unload` says. |
| Capture.ScenarioFirstPrompt | public/content.js:55-84 | The first prompt `47 + 8` at 1000 ms only starts that prompt. |
| Capture.ParseFortySevenPlusEight | public/content.js:58-64 | `47 + 8` parses as add, 47 and 8, widths 2 and 1. |
| Capture.ScenarioClose | public/content.js:56-84 | A new prompt at 1500 ms closes out a prompt parsed as 47 + 8, typed without corrections. That records exactly one Attempt and starts the new prompt. |
| Capture.ScenarioAddition | public/content.js:51-85 | Through the `Tracker` methods: `47 + 8` at 1000 ms, keystrokes `5` and `5` at 1000 and 1300 ms, and the next prompt at 1500 ms. The result is one addition Attempt (47, 8), widths (2, 1), answer `55`, two keystrokes, no corrections, 1000–1500 ms. |
| Capture.ScenarioCarryFirst | public/content.js:82-84 | A change of prompt keeps the keystroke typed under the previous prompt in the buffer. |
| Capture.ScenarioCarrySecond | public/content.js:67-77 | The next close-out takes the whole buffer, together with the keystrokes typed before its own prompt. |
| Capture.ScenarioBufferCarriesOver | public/content.js:23 | An Attempt can hold a keystroke recorded before its own `startTs`. |
| Dashboard.PersistedAttemptsReachDashboard | public/content.js:104-108 | A session persisted by the poll adds exactly its attempts, as the JSON round trip of the store returns them, to the end of the list the dashboard flattens. An ignored poll adds nothing. |
| Dashboard.StoreHoldsNumbers | public/content.js:104-108 | If no stored operand was NaN when the page loaded, none is after any sequence of events: every attempt the dashboard reads has number operands. |
| Dashboard.StoredBucketBounds | src/dashboard.tsx:71-91 | For a bucket built from stored attempts, all four bounds are numbers. `minA ≤` every member's first operand `≤ maxA`, likewise for the second operand, and each bound is attained by some member. |
| Records.StoredNum | public/content.js:108 | A stored operand is always a number, and a number is stored as itself. NaN is stored as JSON `null`, which the dashboard's `Math.min`/`Math.max` read as 0. |
| Records.StoredAttempts | public/content.js:104-108 | Storing a session's attempts keeps their number and order, and each stored attempt differs from the recorded one only in its NaN operands. |
| Sorting.SortDesc | src/dashboard.tsx:52 | The stable sort by a key, largest first, of both `sort` calls. No contract of its own; `Sorting.SortDescSpec` states it. |
| Sorting.SortDescSpec | src/dashboard.tsx:52 | The descending sort is a permutation, is ordered from the largest key to the smallest, and keeps elements with equal keys in their original order. |
| Sorting.SortDescLength | src/dashboard.tsx:52 | The sort keeps the length. |
| Analytics.Flatten | src/dashboard.tsx:40 | `sessions.flatMap(s => s.attempts)`. No contract of its own; `Analytics.FlattenAppend` and `Analytics.FlattenMembers` state it. |
| Analytics.FlattenAppend | src/dashboard.tsx:40 | Flattening a concatenation of session lists concatenates the flattened lists. |
| Analytics.FlattenMembers | src/dashboard.tsx:40 | An attempt is in the flattened list exactly when some session holds it. |
| Analytics.Total | src/dashboard.tsx:42 | A `reduce` that sums a per-attempt weight from 0. No contract of its own; `Analytics.TotalAppend` and `Analytics.TotalOne` state it. |
| Analytics.TotalTime | src/dashboard.tsx:42 | `attempts.reduce((s,a)=>s+(a.endTs-a.startTs),0)`, the sum of durations, also used at line 48 for one operation. No contract of its own; `Analytics.TotalAppend` states its additivity. |
| Analytics.TotalAppend | src/dashboard.tsx:42 | The summed durations of two lists add up. |
| Analytics.TotalOne | src/dashboard.tsx:41 | Counting one per attempt gives the number of attempts. |
| Analytics.GlobalAverage | src/dashboard.tsx:41-43 | There is no average exactly when there are no attempts. Otherwise the average times the number of attempts is the total time. |
| Analytics.OfOp | src/dashboard.tsx:47 | `attempts.filter(a => a.op === op)`. No contract of its own; `Analytics.OfOpMembers` and `Analytics.OpPartition` state it. |
| Analytics.OfOpMembers | src/dashboard.tsx:47 | `filter(a => a.op === op)` keeps exactly the attempts of that operation. |
| Analytics.OpPartition | src/dashboard.tsx:45-49 | The four per-operation lists together have as many attempts, and as much time, as all attempts. |
| Analytics.OpAverage | src/dashboard.tsx:47-49 | An operation without attempts averages 0, because the denominator defaults to 1. Otherwise its average times its count is its total time. |
| Analytics.OpTimes | src/dashboard.tsx:45-52 | `opTimes`. No contract of its own; `Analytics.OpTimesSpec` states it. |
| Analytics.SortedTagged | src/dashboard.tsx:45-52 | Sorting the four tagged averages lists each operation once, with its own average. |
| Analytics.OpTimesSpec | src/dashboard.tsx:45-52 | `opTimes` has four entries and lists each operation exactly once, with its own average. It is ordered slowest first, and operations with equal averages stay in the order add, sub, mul, div. |
| Analytics.JsMin | src/dashboard.tsx:88-91 | `Math.min` of two values: NaN when either is NaN, else the smaller. No contract of its own; `Analytics.MinOfSpec` and `Analytics.BucketBounds` state it. |
| Analytics.JsMax | src/dashboard.tsx:88-91 | `Math.max` of two values: NaN when either is NaN, else the larger. No contract of its own; `Analytics.MaxOfSpec` and `Analytics.BucketBounds` state it. |
| Analytics.MinOfSpec | src/dashboard.tsx:88-90 | `Math.min` over a list is NaN exactly when some element is NaN. Otherwise it is at most every element and is one of them. |
| Analytics.MaxOfSpec | src/dashboard.tsx:89-91 | The same for `Math.max`, with at least in place of at most. |
| Analytics.ListBounds | src/dashboard.tsx:88-91 | Combines the two: NaN bounds exactly when an operand is NaN. Otherwise both bounds are numbers that enclose every operand and are attained. |
| Analytics.MembersSpec | src/dashboard.tsx:69 | The members of a key are exactly the attempts with that key, and a key has members exactly when it occurs in the key order. |
| Analytics.KeyOrderDistinct | src/dashboard.tsx:71-83 | A key enters the record once: the key order has no repetition. |
| Analytics.KeyOrderCovers | src/dashboard.tsx:68-83 | Every attempt's key is in the key order. |
| Analytics.KeysOfAggregate | src/dashboard.tsx:71-83 | The record's keys are exactly those of the key order. |
| Analytics.Fresh | src/dashboard.tsx:71-82 | The bucket created for a key's first attempt. No contract of its own; `Analytics.SummaryOne` states it together with the first update. |
| Analytics.Absorb | src/dashboard.tsx:84-91 | The update of a bucket by one attempt. No contract of its own; `Analytics.SummaryOne` and `Analytics.SummarySnoc` state it. |
| Analytics.Aggregate | src/dashboard.tsx:67-92 | The record after the loop, built one attempt at a time. No contract of its own; `Analytics.KeysOfAggregate` and `Analytics.AggregateSummarized` state it, and `Analytics.TimeBuckets` is proved to compute it. |
| Analytics.SummaryOne | src/dashboard.tsx:71-91 | The bucket created and updated for a key's first attempt is the summary of that one attempt. |
| Analytics.SummarySnoc | src/dashboard.tsx:84-91 | Updating a bucket with one more attempt of its key gives the summary of the longer member list. |
| Analytics.AggregateSummarized | src/dashboard.tsx:68-92 | After the loop every bucket has at least one member and is the summary of its members. Its bounds are the min and max of their operands, its total is their total time and its count is their number. |
| Analytics.TimeBuckets | src/dashboard.tsx:67-92 | The `forEach` loop produces the key order and the record that `Aggregate` describes. The record holds exactly the keys in that order, and every bucket summarizes its members. |
| Analytics.BucketsPartition | src/dashboard.tsx:68-92 | Summing, over the distinct keys, the weight of each key's members gives the weight of all attempts. |
| Analytics.TimeBucketsPartition | src/dashboard.tsx:68-93 | Every bucket has count ≥ 1. The counts sum to the number of attempts and the total times to the summed durations. Every attempt's key is present, and each key occurs once. |
| Analytics.BucketList | src/dashboard.tsx:67-93 | `Object.values(timeBuckets)` consists of populated buckets, one per distinct key, whose counts and times add up to those of all attempts. |
| Analytics.BucketBounds | src/dashboard.tsx:71-91 | A bucket's bounds are NaN exactly when some member's operand is NaN. Otherwise `minA ≤ operands[0] ≤ maxA` and `minB ≤ operands[1] ≤ maxB` hold for every member, and some member attains each bound. Its count and total time are those of its members, which are exactly the attempts with its key. These NaN clauses concern attempts that have not been through the store; for stored attempts see `Dashboard.StoredBucketBounds`. |
| Analytics.Values | src/dashboard.tsx:93 | `Object.values` lists the buckets in key order, position by position. |
| Analytics.WithAverage | src/dashboard.tsx:94 | `{...b, avgTime: b.totalTime / b.count}` changes only `avgTime`, and `avgTime × count = totalTime`. |
| Analytics.Averaged | src/dashboard.tsx:94 | The `map` gives every bucket its average, position by position. |
| Analytics.BucketRates | src/dashboard.tsx:93-95 | `bucketRates`. No contract of its own; `Analytics.BucketRatesSpec` states it. |
| Analytics.BucketRatesSpec | src/dashboard.tsx:93-95 | `bucketRates` is a permutation of the averaged buckets. It is ordered from the largest average to the smallest and keeps equal averages in record order. Every entry's `avgTime × count = totalTime`. |
| Analytics.Focus | src/dashboard.tsx:116 | `bucketRates.slice(0, 5)`. No contract of its own; `Analytics.FocusSlowest` states it. |
| Analytics.FocusSlowest | src/dashboard.tsx:116 | `slice(0, 5)` keeps min(5, n) buckets, each at least as slow as every bucket left out. |
| Ranges.Clamp | src/dashboard.tsx:129 | When `lo ≤ hi`, `clamp` returns a value between the bounds: the value itself when it lies between them, and the nearer bound otherwise. When `lo > hi` it returns `lo`. |
| Ranges.ClampDiv | src/dashboard.tsx:128 | `clampDiv` returns 2..12, and returns the value itself when it is already in 2..12. |
| Ranges.CeilDiv | src/dashboard.tsx:178 | `Math.ceil(n / m)` is the least q with q × m ≥ n. |
| Ranges.DigitMin | src/dashboard.tsx:126 | `digitMin`. No contract of its own; `Ranges.DigitBounds`, `Ranges.DigitTable` and `Ranges.DigitRangeInverts` state it. |
| Ranges.DigitMax | src/dashboard.tsx:127 | `digitMax`. No contract of its own; the same lemmas state it. |
| Ranges.SubRange | src/dashboard.tsx:143-161 | The subtraction rule. No contract of its own; `Ranges.SubRangeSpec`, `Ranges.SubRangeCovers` and `Ranges.SubRangeReaches` state it. |
| Ranges.DivRange | src/dashboard.tsx:170-191 | The division rule, fallback branch included. No contract of its own; `Ranges.DivRangeSpec`, `Ranges.DivNeverFallsBack` and `Ranges.DivRangeDividends` state it. |
| Ranges.AddSubFor | src/dashboard.tsx:131-161 | The final `addSubRange` of a bucket. No contract of its own; `Ranges.AddRangeSpec`, `Ranges.SubRangeSpec` and `Ranges.OtherGroupUntouched` state it. |
| Ranges.MulDivFor | src/dashboard.tsx:163-191 | The final `mulDivRange` of a bucket. No contract of its own; `Ranges.MulRangeSpec` states the multiplication rule with the factor range by width, `Ranges.DivRangeSpec` the division rule and `Ranges.OtherGroupUntouched` the default for the other operations. |
| Ranges.DigitBounds | src/dashboard.tsx:126-127 | `digitMin(d) ≥ 2` and `digitMax(d) ≤ 100` for every d, and `digitMin(d) ≤ digitMax(d)` exactly when 1 ≤ d ≤ 3. |
| Ranges.DigitTable | src/dashboard.tsx:126-127 | The values for d = 1, 2, 3 are (2, 9), (10, 99) and (100, 100). |
| Ranges.DigitRangeInverts | src/dashboard.tsx:126-127 | For 2 ≤ n ≤ 100, n lies in `digitMin(d)..digitMax(d)` exactly when n is printed with d digits. |
| Ranges.RangeBox.constructor | src/dashboard.tsx:131-132 | A new range object holds `{2, 100, 2, 100}`. |
| Ranges.SuggestRanges | src/dashboard.tsx:131-191 | The two range objects of a bucket end with the values of `AddSubFor` and `MulDivFor`. |
| Ranges.AddRangeSpec | src/dashboard.tsx:136-141 | For addition, a number from 2 to 100 lies in the suggested first (second) operand range exactly when it has the first (second) width. |
| Ranges.SubRangeSpec | src/dashboard.tsx:143-161 | For subtraction, the first range is `digitMin(dB)..digitMax(dB)`. Let lo be `10^(dA-1) - digitMax(dB)` (2 for dA = 0) and hi be `10^dA - 1 - digitMin(dB)`, each clamped to 2..100. The second range is lo..hi when lo ≤ hi, and 2..100 when lo > hi. It always lies within 2..100 and is not inverted. |
| Ranges.SubRangeReaches | src/dashboard.tsx:143-160 | The converse, for subtrahend widths 1 to 3 when clamping did not push an end of the addend range past the other end's unclamped value: every suggested addend, with some subtrahend of width dB, makes a minuend of width dA. |
| Ranges.SubRangeCovers | src/dashboard.tsx:143-160 | Take a minuend of width dA and a subtrahend of width dB whose difference is between 2 and 100. That difference lies in the suggested addend range. |
| Ranges.MulRangeSpec | src/dashboard.tsx:163-168 | For multiplication the second range is `digitMin(dB)..digitMax(dB)`. The factor range is `clampDiv(digitMin(dA))..clampDiv(digitMax(dA))`, within 2..12 and not inverted: for widths 1 and 2 a factor from 2 to 12 lies in it exactly when it has that width, width 0 gives only 2, and from width 3 on it is 12..12. |
| Ranges.DivQuotientsOrdered | src/dashboard.tsx:176-183 | For every pair of widths, the clamped smallest quotient is at most the clamped largest one, so the test `minQ > maxQ` is always false. |
| Ranges.DivNeverFallsBack | src/dashboard.tsx:170-191 | The division suggestion is always the second branch: divisors `clampDiv(digitMin(dB))..clampDiv(digitMax(dB))` with the computed quotients. It is never the fallback's 2–12 / 2–100. |
| Ranges.DivRangeSpec | src/dashboard.tsx:170-191 | For division, the divisor bounds are `clampDiv(digitMin(dB))` and `clampDiv(digitMax(dB))`, within 2..12. The quotient bounds are `ceil(10^(dA-1) / minDiv)` (2 for dA = 0) and `floor((10^dA - 1) / maxDiv)`, each clamped to 2..100. The quotient range is never inverted. |
| Ranges.DivRangeDividends | src/dashboard.tsx:174-190 | Take a divisor and a quotient from the suggested ranges. Their product is at least 10^(dA-1) unless the minimum quotient was clamped down to 100. It is at most 10^dA - 1 unless the maximum quotient was clamped up to 2. |
| Ranges.DivClampedExamples | src/dashboard.tsx:170-191 | A 3×3 division bucket suggests the divisor 12 alone and quotients 9–83. A 4×1 bucket suggests divisors 2–9 and the quotient 100 alone, whose product with 2 has three digits. |
| Ranges.DivThreeByOne | src/dashboard.tsx:170-191 | A 3×1 division bucket suggests divisors 2–9 and quotients 50–100. |
| Ranges.DivRangeMissesSmallQuotients | src/dashboard.tsx:170-191 | 108 ÷ 9 is a 3×1 problem with divisor 9 in the suggested range, but its quotient 12 is below the suggested quotients. |
| Ranges.OtherGroupUntouched | src/dashboard.tsx:131-191 | The add and sub rules leave the multiplication/division range at the default, and the mul and div rules leave the addition/subtraction range at the default. |
| Dashboard.Drills | src/dashboard.tsx:125-191 | One drill suggestion per shown bucket, in order, each given by the bucket's operation and widths. |
| Dashboard.Show | src/dashboard.tsx:31-125 | Without stored sessions the page is the empty page. Otherwise it shows: the number of all attempts; their average (none without attempts); `opTimes`; the first five of `bucketRates`, at most five buckets; and one drill per shown bucket. |

## Left out

- Page wiring is replaced by parameters. This covers `document.querySelector`, the `MutationObserver` registration, `addEventListener`, `setInterval` and the `load` wrapper. The `addedNodes` loop becomes one flag: whether an answer field was added in this callback. Several added fields re-attach, and empty the buffer, just as one does.
- Re-attaching adds one more `input` listener and removes none. `getInput()` returns the first `input.answer` of the document. When that element is still there, because it was re-inserted or kept while another field was added, it gets a second listener, and each input event is then recorded twice: two keystrokes, and two corrections for one Backspace. The model has one listener flag and records each input event once; several listeners on one field are not modelled.
- An Attempt's `keystrokes` is the live buffer array in the source. Later pushes reach the stored Attempt until the next attach. The model stores a copy taken at close-out.
- `chrome.storage.local.get/set` is asynchronous, and two read-modify-write cycles could interleave. The model appends synchronously to a sequence field. The stored `session.attempts` is the live `sessionAttempts` array (`public/content.js:104`), and the observer keeps appending Attempts after `sessionActive` turns false. Attempts closed out between the poll and the moment the `get` callback writes therefore also reach the store in the source. The model stores the attempts as they were at the poll.
- The source reads `Date.now()` twice in a transition (lines 57 and 84). The model uses one clock reading per handler, `now`, for both.
- `Number()` is modelled for a string that trims to empty (0), for strings of ASCII digits, and as NaN for everything else. Signs, decimal points, exponents, hex, octal and binary prefixes, and `Infinity` are not modelled as numbers. Zetamac prompts use whole non-negative numbers.
- String lengths count Dafny characters, not UTF-16 code units. Drill prompts are ASCII digits with one-character operator glyphs, so the widths agree.
- `Math.min`/`Math.max` propagate NaN as in JavaScript (`JsMin`, `JsMax`). The store holds JSON, which writes a NaN operand as `null`. The model stores 0 in its place (`Records.StoredNum`), since 0 is what `Math.min`/`Math.max`, the dashboard's only uses of an operand, make of `null`. The `null` itself is not modelled. So the NaN clauses of `Analytics.BucketBounds` describe buckets of attempts that have not been through the store, and the stored attempts that `Dashboard.PersistedAttemptsReachDashboard` adds are those of `Records.StoredAttempts`.
- Text.JsNumber: keeps the exact value of any digit string. `Number()` rounds a value above 2^53 to the nearest double. Drill operands have at most three digits.
- Averages are `real`s. `toFixed` formatting and floating-point rounding of the displayed averages are left out. So is the float `NaN` of the page's "Average time per problem" when all sessions are empty; the model gives no average there.
- `Math.pow(10, d - 1)` is 0.1 for d = 0. Each place where that reaches a result is written as an exact branch.
- Ranges.DigitMin: computes the exact 10^(d-1), where the source's `Math.pow` is floating point. `digitMin` has no upper clamp. Its value goes as it is into `addSubRange.minA` (add, and sub's `minSub`) and into `mulDivRange.minB` (mul). From d = 24 the float `Math.pow(10, d - 1)` is not exactly 10^(d-1), and from d = 310 it is `Infinity`. Drill operands have at most three digits.
- Ranges.AddSubFor: gives the exact powers of ten where the source's floating-point result differs, for widths of 24 or more. When dA ≥ 309 and dB ≥ 310 the source's subtraction rule computes `Infinity - Infinity`, which is NaN, and its addend range then ends in NaN; the model has no such case.
- Ranges.MulDivFor: gives the exact `digitMin(dB)` as the multiplication rule's `minB`, where the source's floating-point value differs from width 24 on. The quotient bounds go through a clamp to 2..100, and the model gives the same clamped values.
- A bucket's string key `${op}:${a}x${b}` is modelled by the triple it is built from. Distinct triples give distinct strings, because operation names contain no `:` and widths are digit strings.
- A bucket is a value in the model. The source updates the bucket object inside the record in place. The loop instead writes the updated value back under its key; nothing else holds a reference to the object.
- The order of `Object.values` is modelled as first-insertion order. JavaScript uses that order for these string keys, since none is an array index.
- The React rendering, the commented-out block at `src/dashboard.tsx:213-236` and `src/App.tsx` are not part of this model.
