# Smart Anesthesia command log — a Dafny model

The application turns a clinician's free-text command ("Give Fentanyl 50 mcg")
into one row of a session log by asking a language model to answer with a
JSON object `{"item", "qty", "unit", "cat"}`. The dashboard shows three figures
computed from the log: the Narcotics total, the number of Critical Events and
the number of rows.

This project models the part of `app.py` that decides what gets recorded:

- `cleaning.dfy`, module `Cleaning`: the cleaning of the model's answer before
  it is decoded (line 41). `str.replace(pat, "")` is `RemoveAll` (delete every
  occurrence, left to right, without overlap) and `str.strip()` is `Strip`
  (trim the characters Python's `str.isspace` accepts from both ends).
- `interpreter.dfy`, module `Interpreter`: `get_gemini_response` (lines 20-45)
  as the function `Interpret`, returning a `Reply` that is either an error map
  or the decoded object, and the caller's failure test `"error" in result`
  (line 64) as `IsFailure`. The model service and the JSON decoder are
  parameters: `generate(apiKey, command)` returns the answer text or the
  message of the exception raised, and `decode(text)` returns the decoded
  object or the decoder's message.
- `events.dfy`, module `Events`: the row built from a reply with `dict.get`
  defaults (lines 67-73), and the dashboard figures (lines 81, 82, 87) as
  functions of the rows.
- `session.dfy`, module `Session`: `st.session_state.logs` as the class
  `SessionLog`, with a field `logs` that `Record` reassigns by putting the new
  row in front (line 74), the Submit handler (lines 59-75) as `Submit`, and the
  dashboard as `Dashboard`. A ghost field `history` keeps the rows in the order
  they were recorded, so that "newest first" and "one row per accepted
  command" can be stated.

Inputs the program takes from its surroundings are parameters: the secrets
map, the command, the two oracles above and the wall-clock time stamp `now`.

Where the behaviour described for the system and the code differ, the model
follows the code:

- The code deletes `` ```json `` and `` ``` `` anywhere in the answer, not
  only a leading and a trailing fence.
- A `qty` or `cat` value is copied as it is. A category outside the six the
  prompt lists is recorded as given, not replaced by "General", and a
  non-numeric `qty` is kept, not replaced by 0.
- Failures are not distinct kinds: every failure is a map with the one key
  `"error"` holding a message, and a decoded object that itself has an
  `"error"` key is treated as a failure too.

## Model

| member | source | states |
|---|---|---|
| `Cleaning.RemoveAll` | app.py:41 | `str.replace(pat, "")` never lengthens the text |
| `Cleaning.RemoveAllChangesIffOccurs` | app.py:41 | the text is unchanged exactly when `pat` does not occur in it; otherwise at least one whole copy of `pat` is removed |
| `Cleaning.NoFenceAfterRemoval` | app.py:41 | after every `` ``` `` is deleted no `` ``` `` is left, not even one formed by joining the text around a deleted one |
| `Cleaning.FenceRemovalKeepsText` | app.py:41 | deleting `` ``` `` removes backticks only: every other character survives, in order |
| `Cleaning.RemoveAllSkipsPlain` | app.py:41 | a backtick-free prefix passes through the deletion of either fence unchanged |
| `Cleaning.IsSpaceExactly` | app.py:41 | the whitespace `strip()` trims is exactly the 29 characters Python's `str.isspace` accepts, listed one by one |
| `Cleaning.Strip` | app.py:41 | `str.strip()`: the result has no whitespace at either end, and is the input less whitespace at its two ends |
| `Cleaning.StripPadding` | app.py:41 | whitespace around a text that has none at its ends is exactly what `strip` removes |
| `Cleaning.Clean` | app.py:41 | the cleaned answer contains no `` ``` `` and no whitespace at either end |
| `Cleaning.CleanIdempotent` | app.py:41 | cleaning a cleaned answer changes nothing |
| `Cleaning.CleanWithoutBackticks` | app.py:41 | on an answer without backticks, cleaning is plain `strip` |
| `Cleaning.RemoveClosingFence` | app.py:41 | deleting every `` ``` `` from a text without `` ``` `` followed by the closing fence gives back the text, even when it ends in one or two backticks |
| `Cleaning.CleanFenced` | app.py:41 | an answer `` ```json `` + body + `` ``` ``, where the body holds no `` ``` `` (lone backticks allowed), cleans to the stripped body |
| `Cleaning.CleanFencedPayload` | app.py:41 | the fenced answer `` ```json\n{...}\n``` `` cleans to exactly `{...}` for every payload without `` ``` `` and without whitespace at its ends |
| `Interpreter.ResultDict` | app.py:20-45 | the returned dict is `{"error": m}` with `m` the missing-key message, the model service's message or the decoder's message, and otherwise exactly the object decoded from the cleaned answer |
| `Interpreter.IsFailure` | app.py:64 | `"error" in result` holds exactly for an error reply or for a decoded object that has an `"error"` key |
| `Interpreter.Interpret` | app.py:20-45 | without `GEMINI_API_KEY` the reply is the missing-key error; a decoded reply needs the key, an answer from the model, and the decoder's acceptance of the cleaned answer |
| `Interpreter.MissingKeyCallsNothing` | app.py:22-23 | without the credential the reply is the same failure whatever the model service and decoder would do, so neither is called |
| `Interpreter.ServiceErrorIsFailure` | app.py:25-45 | an exception from configuring or calling the model service is returned as an error map with its message |
| `Interpreter.MalformedReplyIsFailure` | app.py:41-45 | an answer the decoder rejects after cleaning is returned as an error map with the decoder's message |
| `Interpreter.DecoderSeesOnlyCleanText` | app.py:41-42 | the decoder is only applied to text without `` ``` `` and without whitespace at its ends |
| `Interpreter.FencedReplyDecodesPayload` | app.py:40-42 | a fenced answer whose payload holds no `` ``` `` is decoded as its bare payload |
| `Interpreter.DecodedErrorKeyIsFailure` | app.py:42-45 | a decoded object with an `"error"` key counts as a failure |
| `Events.Get` | app.py:69-72 | `dict.get(key, default)` is the lookup of `key` in the dict laid over a one-entry map holding the default |
| `Events.NewRow` | app.py:67-73 | each of `item`, `qty`, `unit`, `cat` is copied unchanged when present and is `'Unknown'`, `0`, `'-'`, `'General'` when absent; the time is the given time stamp |
| `Events.DefaultingIsOverride` | app.py:69-72 | the row's four fields are the defaults overridden by the reply's own values for those keys; other keys are ignored |
| `Events.CompleteReplyRoundTrips` | app.py:69-72 | a reply that has all four keys is recovered unchanged from the row |
| `Events.UnlistedCategoryIsKept` | app.py:72 | every category value outside the six in the prompt (app.py line 36) is recorded as given, so one other than `'General'` is not turned into `'General'` |
| `Events.Select` | app.py:81-82 | `logs[logs['Category'] == name]` holds only rows of that category, each as often as in the log |
| `Events.SumQty` | app.py:81 | `['Qty'].sum()` of a column without negative quantities is not negative |
| `Events.NarcoticSum` | app.py:81 | the Narcotics figure is not negative when no Narcotic row has a negative Qty, whatever the other rows hold |
| `Events.TotalCount` | app.py:87 | no category has more rows than the Total Logs figure |
| `Events.CriticalCount` | app.py:82 | the Critical Events figure is at most the total number of rows |
| `Events.NarcoticSumConcat` | app.py:81 | the Narcotics figure of two stretches of log is the sum of their figures |
| `Events.CriticalCountConcat` | app.py:82 | the Critical Events figure of two stretches of log is the sum of their figures |
| `Events.NarcoticSumRecord` | app.py:74-81 | putting a Narcotic row in front adds exactly its Qty to the Narcotics figure; any other row leaves it unchanged |
| `Events.CriticalCountRecord` | app.py:74-82 | putting a Critical Event row in front adds one to the Critical Events figure; any other row leaves it unchanged |
| `Events.NoNarcoticsSumToZero` | app.py:81 | with no Narcotic row the Narcotics figure is 0 |
| `Session.NewestFirstAt` | app.py:74 | the log shows the k-th newest recorded row at index k |
| `Session.NewestFirstRecord` | app.py:74 | recording a row puts it in front of the rows already shown |
| `Session.NarcoticSumNewestFirst` | app.py:81 | the Narcotics figure is the same over the newest-first log as over the rows in the order recorded |
| `Session.CriticalCountNewestFirst` | app.py:82 | the Critical Events figure is the same over the newest-first log as over the rows in the order recorded |
| `Session.SessionLog.constructor` | app.py:48-49 | a new session starts with an empty log |
| `Session.SessionLog.Record` | app.py:74 | the new row is at index 0 and the old rows follow in their order; the recorded history grows by that row |
| `Session.SessionLog.Submit` | app.py:59-75 | a row is recorded exactly when the command is non-empty and the reply has no `"error"` key; then it is the defaulted row of the reply, put in front; otherwise the log is unchanged |
| `Session.SessionLog.Dashboard` | app.py:80-87 | the three figures equal the Narcotic Qty sum, the Critical Event count and the row count of the log, the same over the rows in the order recorded; the total is the number of rows recorded in the session |
| `Session.FentanylRow` | app.py:67-81 | a reply `{item: Fentanyl, qty: 50, unit: mcg, cat: Narcotic}` is accepted and gives one row with Narcotics 50, Critical Events 0, total 1 |

## Left out

- The page set-up, CSS, columns, text input, button, spinner, success and error banners and the table display (app.py lines 8-17, 51-59, 65, 75, 78-89): these only render; the dashboard is only shown when the log is not empty (line 80), which changes no figure.
- `genai.configure`, `GenerativeModel('gemini-pro')`, `generate_content` and `response.text` (lines 26-40): a foreign network service, modelled as the `generate` parameter, which returns the answer or the message of an exception.
- The wording of the prompt (lines 31-38): a fixed template embedding the command; the `generate` parameter receives the command itself.
- The body of `json.loads` (line 42): modelled as the `decode` parameter. A decoded value that is not an object is out of scope; in the program, outside the `try`, a number, `null` or boolean raises at the test `"error" in result` (line 64), a string containing the substring `"error"` or a list with an element `"error"` raises at `result['error']` (line 65), and any other string or list raises at `.get` (line 69).
- Floating-point JSON numbers: `Json` has integral numbers only.
- SumQty, NarcoticSum: a row whose Qty is not an integral JSON number adds 0 to the sum and so to the Narcotics figure, because the model does not follow pandas' summing of floats, strings or mixed columns. The sum is also an unbounded integer: pandas adds an all-integer Qty column as int64, which wraps around past 2^63-1 (two Narcotic rows of 5000000000000000000 give a negative figure), and a value beyond that range turns the column into uint64 or object. The non-negativity ensures of `SumQty` and `NarcoticSum`, and the Narcotics figure `Dashboard` reports, hold of the model only; the additivity lemmas hold of the program modulo 2^64.
- `datetime.now().strftime("%H:%M:%S")` (line 68): the wall-clock time is the parameter `now`.
- Streamlit's re-running of the whole script on each interaction: the session state survives re-runs, which the model expresses by one `SessionLog` object created once (lines 48-49).
- RemoveAll: requires a non-empty pattern: Python's `replace` with an empty pattern inserts between characters, and the program only uses the two non-empty fences.
