# gestion-tareas core, modelled in Dafny

A model of the small core of a recurring-task tracker ("gestión de tareas").
Each task has a name, a duration in minutes, a periodicity in hours and an
importance. A task is either pending or up to date, and it falls back to
pending once its periodicity has elapsed since it was last completed. The
model covers three parts of the core:

- **Duration codec** (`frontend/src/utils/timeUtils.js`, module `TimeUtils`).
  - `parseDuration` reads `"<digits><spaces><m|h|d|w>"` into minutes.
  - `humanizeDuration` prints minutes in the largest unit that divides them
    exactly, with Spanish labels.
- **App.js helpers** (`frontend/src/App.js`).
  - Module `TimeInput` holds the looser parser `parseTimeInput`, which
    accepts bare integers, the magnitude-band renderer `formatTimeDisplay`
    and `convertHoursToMinutes`.
  - Module `TaskOrder` holds `ordenarTareas`, an in-place array sort with
    four keys, and the split of the task list into the pending list and the
    up-to-date list.
- **Task table** (`backend/index.js`, module `TaskStore`). The class
  `TaskTable` holds a `map<int, Row>` and an AUTOINCREMENT counter. Its
  methods are create, edit, mark up to date and the check-status sweep.
  Each method is specified by a pure function of the table (`Edited`,
  `Marked`, `Swept`), and the lemmas relate those functions to each other.

Supporting modules:

- `Wrappers` gives `Option` (JavaScript null) and `Result`.
- `JsText` gives the JavaScript built-ins the code relies on: `\d`, `\s`,
  `trim`, `toLowerCase`, `parseInt` of a digit string, and integer-to-text
  in template literals.

What the code does, in the places where a reader of the system might
expect otherwise:

- `parseDuration` rejects a bare number. Only `parseTimeInput` accepts one.
- Expiry is elapsed time in hours: `now - lastCompleted >=
  periodicity * 3600000`. There is no day-aligned due rule.
- The sweep does not clear `lastCompleted`.
- Both lists are sorted with the same four keys. There is no time-until-due
  key.
- Importance is a number, not an enumeration.
- Create checks only the name.
- The code has no delete route and no mark-pending route.
- Parsing what was formatted does not give back the minutes.
  `humanizeDuration` writes Spanish words, and `parseDuration` never
  accepts its output (`HumanizeTextDoesNotParse`). The round trip that does
  hold writes the chosen count and unit in the compact input form
  (`HumanizeCompactRoundTrip`).

## Model

| member | source | states |
|---|---|---|
| `JsText.NatToString` | frontend/src/utils/timeUtils.js:6 | the decimal text of a number is all digits and `parseInt` reads it back as the same number |
| `JsText.TrimPadded` | frontend/src/App.js:6-8 | `trim` removes exactly the whitespace around text that starts and ends with another character |
| `JsText.DigitsValue` | frontend/src/utils/timeUtils.js:6 | `parseInt` of n digits is below 10^n, and positive when the first digit is not `0` |
| `JsText.Trim` | frontend/src/App.js:6-8 | the trimmed text is no longer than the input and starts and ends with a non-whitespace character |
| `JsText.TrimBlank` | frontend/src/App.js:6 | `trim` gives `""` exactly for a string of whitespace |
| `JsText.LeadingDigitsOf` | frontend/src/utils/timeUtils.js:4 | the digit run `\d+` at the front of a string is found exactly, stopping at the first non-digit |
| `TimeUtils.ParseDuration` | frontend/src/utils/timeUtils.js:2-14 | null for an absent or empty string; a successful parse is never negative |
| `TimeUtils.HumanizeDuration` | frontend/src/utils/timeUtils.js:17-32 | the text is `"-"` exactly for null; no count label is ever `"-"` |
| `TimeUtils.ParseDurationValue` | frontend/src/utils/timeUtils.js:4-11 | `<digits><whitespace><unit>` in either case parses to the digits' value times 1, 60, 1440 or 10080 |
| `TimeUtils.ParseDurationShape` | frontend/src/utils/timeUtils.js:4-5 | a string parses if and only if it has the shape of `/^(\d+)\s*([mhdw])$/i` |
| `TimeUtils.ParseDurationRejectsBareNumber` | frontend/src/utils/timeUtils.js:4-5 | a bare number such as `"45"` is null |
| `TimeUtils.ParseDurationRejectsSign` | frontend/src/utils/timeUtils.js:4-5 | a signed value such as `"-5m"` is null |
| `TimeUtils.ParseDurationEdges` | frontend/src/utils/timeUtils.js:3-8 | absent and `""` are null; `"0m"` is 0, not rejected |
| `TimeUtils.UnitLetter` | frontend/src/utils/timeUtils.js:7-12 | each of m, h, d, w names exactly one unit, and no other letter names one |
| `TimeUtils.HumanizeUnit` | frontend/src/utils/timeUtils.js:19-31 | the chosen unit divides the minutes and no larger unit does |
| `TimeUtils.HumanizeUsesLargestDividingUnit` | frontend/src/utils/timeUtils.js:17-31 | any unit that divides the value, with no larger unit dividing it, gives the label; the count is the exact quotient |
| `TimeUtils.CountLabelSingular` | frontend/src/utils/timeUtils.js:20-31 | the label ends in the plural `s` exactly when the count is not 1 |
| `TimeUtils.HumanizeZero` | frontend/src/utils/timeUtils.js:18-21 | null renders as `"-"` and 0 renders as `"0 semanas"` |
| `TimeUtils.WeeksHumanizeAsWeeks` | frontend/src/utils/timeUtils.js:11-21 | the parse of `<n>w` is n times 10080, a multiple of a week, and humanizes as n weeks |
| `TimeUtils.HumanizeCompactRoundTrip` | frontend/src/utils/timeUtils.js:2-31 | the humanized count and unit, written as `<count><letter>`, parse back to the same minutes |
| `TimeUtils.HumanizeTextDoesNotParse` | frontend/src/utils/timeUtils.js:17-31 | parseDuration rejects every text humanizeDuration produces |
| `TimeInput.ParseTimeInput` | frontend/src/App.js:5-33 | absent input is null |
| `TimeInput.StartsNumber` | frontend/src/App.js:19-20 | `parseFloat` finds a number only if the text holds a digit, and always when it starts with one |
| `TimeInput.LowerDigits` | frontend/src/App.js:8-12 | `toLowerCase` leaves a digit string unchanged, so `/^\d+$/` still sees it |
| `TimeInput.ParseTimeInputBlank` | frontend/src/App.js:6 | empty or whitespace-only input is null |
| `TimeInput.ParseTimeInputDigits` | frontend/src/App.js:8-13 | after trimming, a pure digit string parses to that integer, unchanged |
| `TimeInput.ParseTimeInputSuffix` | frontend/src/App.js:16-31 | an integer with suffix m/h/d/w in either case, padded or not, parses to the value times 1, 60, 1440 or 10080 |
| `TimeInput.ParseTimeInputAgreesWithParseDuration` | frontend/src/App.js:16-31 | on `<digits><unit>` with no space, parseTimeInput and parseDuration give the same minutes |
| `TimeInput.BareNumberParsersDisagree` | frontend/src/App.js:11-12 | on a bare number, parseDuration is null while parseTimeInput gives the number |
| `TimeInput.EditFormRoundTrip` | frontend/src/App.js:150-153 | the digit text the edit form fills in for a stored value reads back as the same minutes |
| `TimeInput.Layout` | frontend/src/App.js:38-66 | the band is minutes below 60, hours below 1440, days below 10080 and weeks otherwise; at most one finer remainder is kept, and what is dropped is below the band's precision |
| `TimeInput.Render` | frontend/src/App.js:41-64 | every label is non-empty |
| `TimeInput.FormatTimeDisplay` | frontend/src/App.js:35-67 | the display is empty exactly for a missing value or 0 |
| `TimeInput.FormatAgreesWithHumanize` | frontend/src/App.js:40-66 | for positive minutes that are a whole number of their band's unit, the label equals humanizeDuration's |
| `TimeInput.ConvertHoursToMinutes` | frontend/src/App.js:74-77 | null exactly for a missing value or 0 |
| `TimeInput.ConvertHoursMatchesSuffix` | frontend/src/App.js:74-77 | converting h whole hours gives what parseTimeInput reads from `"<h>h"` |
| `TimeInput.PeriodicityDisplay` | frontend/src/App.js:249 | a periodicity of h hours below a day is shown as h hours; from a day up it is shown in days or weeks |
| `TaskOrder.NameCompareAntisymmetric` | frontend/src/App.js:88 | swapping two names negates their comparison |
| `TaskOrder.NameCompareZero` | frontend/src/App.js:88 | two names compare equal exactly when they are the same string |
| `TaskOrder.NameCompareTransitive` | frontend/src/App.js:88 | the name order is transitive |
| `TaskOrder.Compare` | frontend/src/App.js:81-89 | the comparator is 0 exactly for tasks equal on importance, duration, periodicity (missing as 0) and name; the more important task always comes first |
| `TaskOrder.CompareAntisymmetric` | frontend/src/App.js:81-89 | the comparator is consistent: swapping its arguments negates it |
| `TaskOrder.PrecedesTotal` | frontend/src/App.js:81-89 | any two tasks are ordered one way or the other |
| `TaskOrder.PrecedesTransitive` | frontend/src/App.js:81-89 | the comparator's order is transitive |
| `TaskOrder.ChainedIsSorted` | frontend/src/App.js:79-89 | ordering each pair of neighbours orders the whole sequence |
| `TaskOrder.SortedKeys` | frontend/src/App.js:80-89 | in a sorted array, importance descends, then duration, then periodicity, with missing values counting as 0; then names ascend |
| `TaskOrder.SortTasks` | frontend/src/App.js:79-90 | the same array is returned, sorted under the comparator and a permutation of the input |
| `TaskOrder.PendingTasks` | frontend/src/App.js:177 | the pending list holds only tasks whose status is not `"up-to-date"` |
| `TaskOrder.UpToDateTasks` | frontend/src/App.js:178 | the up-to-date list holds only tasks whose status is `"up-to-date"` |
| `TaskOrder.PartitionExact` | frontend/src/App.js:177-178 | together the two lists hold every task exactly as often as the task list does |
| `TaskOrder.SplitTasks` | frontend/src/App.js:177-178 | each list is a new array, sorted, and a permutation of its filtered part |
| `TaskStore.Expired` | backend/index.js:104-105 | only an up-to-date row with a periodicity and a completion time expires, and with a positive periodicity at least an hour must have passed |
| `TaskStore.Edited` | backend/index.js:67 | only the row with that id changes; its name, duration, periodicity and importance are replaced, while its status and lastCompleted are kept |
| `TaskStore.Marked` | backend/index.js:84 | only the row with that id changes: it becomes up-to-date with lastCompleted = now, whatever its status was |
| `TaskStore.Swept` | backend/index.js:98-107 | a row is pending afterwards if and only if it was pending or it had expired; only the status changes, and lastCompleted is kept |
| `TaskStore.SweepIdempotent` | backend/index.js:98-107 | sweeping twice at the same time gives the same table as sweeping once |
| `TaskStore.MarkedExpiresAfterPeriod` | backend/index.js:84-105 | a task marked at t (non-zero) with periodicity p (non-zero) is swept to pending exactly when `now - t >= p * 3600000` |
| `TaskStore.ExpiryIsMonotone` | backend/index.js:105 | a row that has expired stays expired at any later time |
| `TaskStore.RemarkRefreshes` | backend/index.js:82-84 | marking again replaces the completion time; only the last mark counts |
| `TaskStore.EditCommutesWithMark` | backend/index.js:67-84 | editing and marking the same row commute, because an edit never touches status or lastCompleted |
| `TaskStore.TaskTable.constructor` | backend/index.js:18-28 | the table starts empty, with the id counter at 1 |
| `TaskStore.TaskTable.Create` | backend/index.js:44-60 | an empty or missing name fails and inserts nothing; otherwise a row with a fresh id, status pending and no lastCompleted is added |
| `TaskStore.TaskTable.Edit` | backend/index.js:63-77 | a missing name fails the NOT NULL constraint exactly when a row with that id exists, and then nothing changes; an id with no row leaves the table unchanged and succeeds, whatever the name; otherwise the table becomes `Edited` |
| `TaskStore.TaskTable.MarkUpToDate` | backend/index.js:80-94 | the table becomes `Marked` at time `now` |
| `TaskStore.TaskTable.CheckStatus` | backend/index.js:97-113 | the row-by-row loop leaves the table equal to `Swept` at time `now` |

## Left out

- HTTP routing, CORS, JSON bodies and status codes (backend/index.js:1-11, 33-41, 116-118). What remains is the validation outcome, as a `Result`.
- GET /tasks (backend/index.js:33-41). It only reads the table.
- SQLite schema, SQL text and the error callbacks. The model does not include storage errors.
- The check-status sweep issues `db.run` updates inside `forEach` without waiting for them. The model runs them as a sequential loop in id order. The updates are independent, so the order does not change the result.
- `Date.now()` is a parameter `now`, in milliseconds.
- React state, axios calls and JSX rendering in App.js. Only the pure split at lines 177-178 is modelled.
- Floating-point paths of parseTimeInput: decimal inputs such as `"1.5h"` and the `parseFloat` fallback. Both give `FloatPath`, with no value. The fallback's NaN case gives null exactly.
- `convertMinutesToHours` (frontend/src/App.js:69-72) is left out, because its division yields fractional hours. Periodicities are whole hours in this model.
- JavaScript numbers are doubles. The model uses unbounded integers, so precision loss above 2^53 is not captured.
- `toLowerCase` is modelled on ASCII letters only. Non-ASCII case mappings cannot produce a digit, a sign, a dot or a unit letter, so no outcome of parseTimeInput depends on them.
- `localeCompare` is modelled as an ordinal comparison by code point that returns -1, 0 or 1. Locale collation is not modelled.
- Importance given as a string by the form is not modelled. Importance is an optional integer that counts as 0 when missing.
- Status in the front end is a string; in the table it is the two-valued `Status`.
- TaskOrder.SortTasks: proved sorted and a permutation only. The stability of the engine's `Array.prototype.sort` is not stated. The sorting algorithm (insertion sort here) is not fixed by the source.
- TimeInput.ParseTimeInput: its own contract covers only absent input. The integer paths are stated by the lemmas beside it. The floating-point paths are not modelled.
