# Birthday autoresponder, modelled in Dafny

The script `send_birthdays.py` reads a spreadsheet of contacts. It
normalises each phone number to carry a leading `+` and keeps the rows
whose birthday has today's month and day. Then, over one Telegram session,
it looks up each of those contacts and sends them two templated messages.
It disconnects at the end, or at once when nobody has a birthday today.

This project models those steps in four modules:

- `phone.dfy` (module `Phone`): the phone-normalisation rule, as a
  function with its idempotence and an independent description: the
  shortest `+`-prefixed string that ends with the input.
- `contacts.dfy` (module `Contacts`): the rows (`Row`, `Date`), the
  normalisation applied to the whole `phone` column, and the month/day
  filter. The model proves that the filter is stable, that it keeps exactly
  the matching rows, and that neither the reference year nor the birth years
  matter.
- `trace.dfy` (module `Trace`): what one run does, as a sequence of events
  (`Resolve`, `Skip`, `Send`, `Disconnect`). The network is an oracle: one
  `Outcome` per matching row, saying whether the lookup succeeds and whether
  each of the two sends is delivered. `RunTrace` is the specification of a
  run. The lemmas prove the partial-failure policy and the "disconnect once,
  last" rule against it.
- `birthdays.dfy` (module `Birthdays`): the imperative `main`. The class
  `Client` models the messaging session: a `connected` flag plus the events
  recorded so far. The method `SendBirthdays` contains the early return and
  calls `HandleRows`, the outer loop over rows. Each pass is `HandleRow`,
  where the code's `continue` becomes a return that skips an unresolved
  row, and `Greet` is the inner loop over the two templates.
  `SendBirthdays` is proved to produce exactly `RunTrace` of the filtered,
  normalised table.

The message texts follow the code, including the leading emoji
(`"🎂 Happy Birthday, " + first_name + "!"` and
`"🎉 Congratulations, " + other_name + "!"`).

## Model

| member | source | states |
|---|---|---|
| Phone.Normalize | send_birthdays.py:21 | the result starts with `+`, still ends with the whole input, is at most one character longer, and equals the input when the input already starts with `+` |
| Phone.NormalizeAddsPrefix | send_birthdays.py:21 | an input without `+` becomes exactly `"+"` followed by the input, one character longer |
| Phone.NormalizeIdempotent | send_birthdays.py:21 | normalising twice equals normalising once |
| Phone.NormalizeIsShortestPlusExtension | send_birthdays.py:21 | no `+`-prefixed string ending with the input is shorter than the result, and one of the same length is the result |
| Contacts.IsBirthdayOn | send_birthdays.py:26-27 | a row with a missing birthday never matches; a birthday on the reference date itself always matches |
| Contacts.NormalizePhones | send_birthdays.py:21 | same number of rows; every phone is the row's original phone normalised, so it starts with `+`; every other column is untouched; a row whose phone already had `+` is unchanged |
| Contacts.NormalizePhonesIdempotent | send_birthdays.py:21 | normalising the phone column twice changes nothing more |
| Contacts.FilterToday | send_birthdays.py:25-28 | every kept row has today's month and day; the result is no longer than the table; it is empty exactly when no row matches |
| Contacts.FilterKeepsExactlyMatching | send_birthdays.py:25-28 | a row is in the result if and only if it is in the table and its birthday's month and day are today's |
| Contacts.KeptPositions | send_birthdays.py:25-28 | the boolean mask's selected positions: inside the table, strictly increasing, and containing a position exactly when that row matches |
| Contacts.FilterIsStable | send_birthdays.py:25-28 | the filter's output is the table read at the kept positions in increasing order, so it is an order-preserving subsequence |
| Contacts.FilterAppend | send_birthdays.py:25-28 | filtering a concatenation gives the filtered parts, concatenated in the same order |
| Contacts.FilterIgnoresTodaysYear | send_birthdays.py:24-28 | the result does not depend on the reference date's year |
| Contacts.KeptPositionsIgnoreBirthYears | send_birthdays.py:26-27 | tables whose rows differ only in birthday year keep the same positions |
| Contacts.FilterIgnoresBirthYears | send_birthdays.py:26-27 | tables whose rows differ only in birthday year filter to tables of the same length whose rows still differ only in year |
| Contacts.NormalizeCommutesWithFilter | send_birthdays.py:21-28 | filtering the normalised table equals normalising the filtered table, since the filter never reads the phone |
| Trace.BirthdayText | send_birthdays.py:53 | the first template opens with the cake emoji and ends with `!`, and the first name can be read back from between the fixed opening and the `!` |
| Trace.CongratsText | send_birthdays.py:54 | the second template opens with the party emoji and ends with `!`, and the other name can be read back from between the fixed opening and the `!` |
| Trace.RowEvents | send_birthdays.py:45-60 | a row's events open with the lookup of its phone; there are three events when the lookup succeeds and two otherwise, and the second is a skip exactly when the lookup fails |
| Trace.RunTrace | send_birthdays.py:30-63 | a run is never empty and always ends with the disconnect |
| Trace.RunOneRow | send_birthdays.py:36-63 | a run over a single matching row is that row's events followed by the disconnect |
| Trace.GreetingsSends | send_birthdays.py:52-57 | the inner loop's sends are exactly two: the birthday greeting with the first outcome, then the congratulation with the second outcome |
| Trace.RowEventsCounts | send_birthdays.py:45-60 | one lookup per row; two sends and no skip when it resolves; one skip and no send when it does not; no disconnect |
| Trace.RowsEventsAppend | send_birthdays.py:36-60 | the events of a concatenation of rows are the first part's events followed by the second part's |
| Trace.RowsEventsCounts | send_birthdays.py:36-60 | the rows' events contain one lookup per row in row order, two sends per resolved row, one skip per unresolved row, and no disconnect |
| Trace.RunDisconnectsOnceAtEnd | send_birthdays.py:30-63 | on both exit paths the trace ends with a disconnect and has no other disconnect |
| Trace.EarlyExit | send_birthdays.py:30-33 | the trace is the single disconnect if and only if no row matched; otherwise it starts by looking up the first matching row |
| Trace.RunLooksUpInOrder | send_birthdays.py:36-46 | the phones a run looks up are exactly the matching rows' phones, once each, in filtered order |
| Trace.RunCounts | send_birthdays.py:30-63 | a run looks up once per matching row, sends twice per resolved row, skips each unresolved row once, and disconnects exactly once |
| Trace.Split | send_birthdays.py:36-63 | a run is the events of the rows before row i, then row i's events, then the rows after it, then the disconnect |
| Trace.RowIsolated | send_birthdays.py:45-60 | replacing the network's answers for one row (a failed lookup, a failed send) changes only that row's events; every earlier and later row is handled as before |
| Birthdays.Client.Start | send_birthdays.py:16-17 | a started client is connected and has recorded nothing |
| Birthdays.Client.GetEntity | send_birthdays.py:45-46 | records one lookup of the phone and returns the network's answer, staying connected |
| Birthdays.Client.NoteSkip | send_birthdays.py:47-49 | records that the row was skipped |
| Birthdays.Client.SendMessage | send_birthdays.py:56-60 | records one send attempt with its outcome and returns it; a failure does not end the session |
| Birthdays.Client.Disconnect | send_birthdays.py:63 | only a connected client can disconnect; afterwards it is disconnected and the disconnect is recorded last |
| Birthdays.Greet | send_birthdays.py:52-60 | the inner loop appends exactly the two send attempts, in template order, each with its own outcome |
| Birthdays.HandleRow | send_birthdays.py:37-60 | one pass of the outer loop appends exactly the row's specified events: the lookup, then a skip or the two send attempts |
| Birthdays.FirstOfTwoMatches | send_birthdays.py:21-28 | a two-row table whose first row alone matches filters to that row alone, with its phone normalised |
| Birthdays.HandleRows | send_birthdays.py:36-60 | the outer loop appends exactly the specified events of every row, in order, skipping unresolved rows and continuing |
| Birthdays.SendBirthdays | send_birthdays.py:20-63 | a whole run yields exactly the specified trace of the normalised, filtered table; it disconnects exactly once, last; it looks rows up in filtered order |

## Left out

- Credential loading (`load_dotenv`, `os.getenv`, `int(...)`, lines 9-12) is environment I/O and is not modelled.
- Telethon client construction and `client.start()` (lines 16-17): the one-time-code login and the session file are external. `Client.Start` only yields a connected session.
- `pd.read_excel` and its date parsing (line 20), and pandas' `astype(str)` on numeric or empty phone cells (line 21), are library behaviour. Rows arrive with the phone already a string. The birthday is an optional date, with `None` standing for an empty cell (pandas `NaT`); a missing birthday never matches.
- `datetime.today()` (line 24) is a clock read. The reference date is a parameter, read once per run.
- The console output (lines 31, 42, 48, 58, 60) and the exception texts are not modelled; the event trace stands in for them.
- `asyncio.run` and `await` (lines 66-67) are not modelled. Execution is strictly sequential, so there is no concurrency.
- The results of `get_entity` and `send_message` are oracle inputs (`Outcome`), one per matching row. Messages are addressed by the normalised phone, which stands for the resolved entity.
- A failure before the loop, such as a missing spreadsheet, is not modelled. The code gives no disconnect guarantee on those paths, so the model claims none.
- Only `get_entity` (lines 45-49) and `send_message` (lines 56-60) sit inside a `try`. Reading `row['first_name']` and `row['other_name']` (lines 38-39) does not. A spreadsheet without either column raises there on the first matching row, and the run ends without the disconnect of line 63. The model assumes both columns exist, so it does not cover that path and claims no disconnect on it. A spreadsheet without a `birthday` or `phone` column fails earlier, at line 20 or line 21, which is a failure before the loop as above.
- The import-then-resolve variant of the script, which adds a contact before sending, is not part of this model. Only the direct-lookup script is modelled.
- Rows with the same phone are handled independently and each receives both messages, as in the code. No deduplication is modelled because the code does none.
- Dates are not checked for calendar validity. The filter compares only month and day numbers, as the code does.
