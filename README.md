# A verified model of the todo task-list core

`todo` is a small command-line to-do list. Most of it is prompting, printing
and file handling. This project models the two parts that hold real logic,
and proves what they promise:

- **`src/utils.py`**
  - `generate_id`: a fresh integer id for a list of task dictionaries.
  - `validate_date` and `format_date`: check that a due date is a
    `YYYY-MM-DD` date and normalise it to its canonical ISO text.
- **`src/app.py`**
  - `add_task`: build one task record and append it in place to the loaded
    task list, using the file's own id rule.

## Modules

| file | module | models |
|---|---|---|
| `wrappers.dfy` | `Wrappers` | `Option`, standing for a value or Python's `None` |
| `values.dfy` | `Values` | the values a decoded task list holds (`int`, `str`, `bool`, anything else); a task as a dictionary `map<string, Value>`; `dict.get` |
| `pytext.dfy` | `PyText` | `str.isspace`, `str.strip`, `str(n)` / `f"{n}"`, `"%02d"` and `"%04d"`, and the number a run of digits denotes |
| `datetime.dfy` | `Datetime` | date validity with the Gregorian leap-year rule and years 1 to 9999; `datetime.strptime(t, "%Y-%m-%d")` written out as its grammar; `date.isoformat()` |
| `utils.dfy` | `Utils` | `generate_id`, `validate_date`, `format_date` |
| `app.dfy` | `App` | `add_task`, with the task list as a `TaskList` object whose `items` field is mutated |

### The date grammar

`strptime` with `%Y-%m-%d` builds a regular expression with these groups:

- `%Y` is exactly four digits.
- `%m` is `1[0-2]`, `0[1-9]` or `[1-9]`.
- `%d` is `3[01]`, `[12][0-9]`, `0[1-9]`, `[1-9]` or a space followed by `[1-9]`.

The expression is matched at the start of the text. Any text left over is an
error. A match that is not a real date is also an error, and so is year 0.
`StrptimeYmd` follows these steps in this order. The
same date may therefore be written `2024-03-05`, `2024-3-5` or `2024-03- 5`.
The reference description of the accepted texts is `Render(d, sp)`: date `d`
written with spelling `sp`, where `sp` says whether the month is short and
how a one-digit day is written. The model proves that `strptime` accepts
exactly these texts and reads each of them as its own date.
`validate_date` and `format_date` first apply `strip()`, and `strip()` removes
every character that `str.isspace` accepts.

### The id rule of `add_task`

`add_task` does not call `generate_id`. It uses its own rule:

- The id is 0 when the loaded list is empty.
- Otherwise the id is the list's length plus one.
- The id is stored as decimal text.

If each call loads the list the previous call saved, then from an empty list
the ids handed out are "0", "2", "3", … . These ids are distinct, and "1" is
never used. `src/storage.py` does not in fact keep what it is given; see
"## Left out". The rule ignores the ids already in
the list, so a loaded list can receive a duplicate id: `NewIdRepeatsExactly`
says when, and `NewIdCanRepeatLoadedId` shows one such list. The model keeps this rule as written. `src/utils.py`
defines `generate_id` with the "largest integer id + 1, or 1" rule, but
`src/app.py` does not call it, and `add_task` accepts an empty title.

## Model

| member | source | states |
|---|---|---|
| `Values.Get` | src/utils.py:13 | `t.get("id")` is `Some` exactly when the key is present, holding the stored value, and `None` otherwise |
| `Utils.IntIdsExactly` | src/utils.py:13 | the comprehension keeps exactly the integer ids: `x` is in it iff some task's `get("id")` is the int `x` |
| `Utils.MaxOr` | src/utils.py:14 | `max(ids, default=d)` is `d` for an empty list, otherwise an element of the list no smaller than any element |
| `Utils.GenerateId` | src/utils.py:11-12 | an empty task list gets id 1 |
| `Utils.GenerateIdAboveAll` | src/utils.py:13-14 | the new id is strictly greater than every integer id in the list, so no task already has it |
| `Utils.GenerateIdIsMaxPlusOne` | src/utils.py:13-14 | when some task has an integer id, the new id is one more than the integer id of some task (the largest) |
| `Utils.GenerateIdIsLargestPlusOne` | src/utils.py:13-14 | when some task has an integer id, the new id minus one is the integer id of some task and no integer id exceeds it: the new id is the largest integer id plus one |
| `Utils.IntIds` | src/utils.py:13 | the comprehension is no longer than the list; `IntIdsExactly` says which values it keeps |
| `Utils.GenerateIdWithoutIntIds` | src/utils.py:8-14 | tasks whose id is missing or not an int are ignored; with no integer id at all the result is 1 |
| `Utils.GenerateIdPositive` | src/utils.py:11-14 | if all integer ids are non-negative, the new id is at least 1 |
| `Utils.ValidateDate` | src/utils.py:17-28 | only strings whose stripped text has 8 to 10 characters pass; `ValidateDateMeans` characterises the accepted strings exactly |
| `Utils.FormatDate` | src/utils.py:31-43 | there is a result exactly when `ValidateDate` holds, and it is in canonical `YYYY-MM-DD` layout; `FormatDateCanonical` and `FormatDateFixedPoints` characterise it further |
| `Utils.ValidateDateMeans` | src/utils.py:17-28 | `validate_date(v)` holds iff `v` is a string whose stripped text is a spelling `Render(d, sp)` of a real date `d`; any non-string is rejected |
| `Utils.LeapDay` | src/utils.py:23-28 | `YYYY-02-29` validates exactly when `YYYY` is a leap year |
| `Utils.FormatDateNoneIffInvalid` | src/utils.py:31-43 | `format_date` returns `None` exactly when `validate_date` is false |
| `Utils.FormatDateCanonical` | src/utils.py:36-43 | a `format_date` result is in canonical zero-padded form, is the ISO text of the date the input spelled, validates, and is a fixed point of `format_date` |
| `Utils.FormatDateIdempotent` | src/utils.py:31-43 | normalising a normalised date changes nothing |
| `Utils.FormatDateFixedPoints` | src/utils.py:31-43 | `format_date(s) == s` iff `s` is in canonical layout and validates |
| `Datetime.StrptimeYmd` | src/utils.py:25 | an accepted text is a real date, 8 to 10 characters long, four digits giving the year and then a dash; `StrptimeAcceptsSpellings` and `StrptimeOnlySpellings` characterise the accepted texts exactly |
| `Datetime.MonthThenDash` | src/utils.py:25 | the `%m` alternatives `1[0-2]`, `0[1-9]`, `[1-9]` with the dash after it: a match is a month 1 to 12 of width 1 or 2, followed by `-` |
| `Datetime.DayGroup` | src/utils.py:25 | the `%d` alternatives `3[01]`, `[12][0-9]`, `0[1-9]`, `[1-9]`, space and `[1-9]`, the first that matches wins: a match is a day 1 to 31 of width 1 or 2, inside the text |
| `Datetime.ValidDate` | src/utils.py:25 | the range check of the `datetime.date` constructor: year 1 to 9999, month 1 to 12, day within `DaysInMonth` |
| `Datetime.Render` | src/utils.py:25 | a spelling of a date is 8 to 10 characters: four year digits, a dash, the month text and the day text |
| `Datetime.StrptimeAcceptsSpellings` | src/utils.py:25 | completeness of the `%Y-%m-%d` parse: every spelling of every real date is accepted and read as that date |
| `Datetime.StrptimeOnlySpellings` | src/utils.py:25 | soundness of the parse: an accepted text is a real date (Gregorian month lengths, years 1 to 9999) and is one of its spellings |
| `Datetime.StrptimeCanonical` | src/utils.py:40-43 | an accepted text in canonical layout is the `isoformat()` of the date it is read as |
| `Datetime.IsoFormat` | src/utils.py:43 | `isoformat()` gives four digits, dash, two digits, dash, two digits, denoting year, month and day |
| `Datetime.IsoFormatIsSpelling` | src/utils.py:43 | the canonical text is the fully zero-padded spelling of the date |
| `Datetime.DaysInMonth` | src/utils.py:25 | month lengths lie between 28 and 31, and February has 29 days exactly in leap years |
| `PyText.IsSpace` | src/utils.py:25 | the characters `str.isspace` accepts, which `strip()` removes |
| `PyText.StripSlice` | src/utils.py:25 | `strip()` cuts its input into leading whitespace, the kept text, and trailing whitespace |
| `PyText.Strip` | src/utils.py:25 | the text `strip()` keeps neither starts nor ends with whitespace |
| `PyText.StripIdempotent` | src/utils.py:25 | stripping twice is stripping once |
| `PyText.Pad2` | src/utils.py:43 | `%02d` gives two digits denoting `n`, for `n` below 100 |
| `PyText.Pad4` | src/utils.py:43 | `%04d` gives four digits denoting `n`, for `n` below 10000 |
| `PyText.Decimal` | src/app.py:16 | `f"{new_id}"` is a non-empty run of digits with no superfluous leading zero |
| `PyText.DecimalRoundTrip` | src/app.py:16 | reading back the decimal text of an id gives the id |
| `PyText.DecimalInjective` | src/app.py:16 | different ids have different decimal texts |
| `App.NewIdNumber` | src/app.py:11-14 | the new id is 0 exactly when the loaded list is empty, is never 1, and otherwise exceeds the list's length |
| `App.TaskRecord` | src/app.py:16 | the record has exactly the keys `id`, `title`, `description`, `created_at`, `due_data` and `completed`, and its id is a run of digits denoting the given number |
| `App.WithTask` | src/app.py:10-18 | the saved list is the loaded list with one record added at the end, carrying the process stamp and the title; `AddTask` gives the full record |
| `App.AddAll` | src/app.py:9-18 | a run of `add_task` calls adds one record per call; `AddAllLayout` gives the contents |
| `App.TaskList.Append` | src/app.py:17 | `list.append` adds the record at the end and changes nothing else |
| `App.AddTask` | src/app.py:9-18 | the list grows by one; the loaded records stay unchanged and in order; the new last record has id "0" for an empty list and otherwise the decimal text of length+1; it carries title, description, `ts` as `created_at`, the due date under `due_data`, and `completed` (default false), and no other keys |
| `App.AddAllLayout` | src/app.py:11-17 | after a run of `add_task` calls the loaded records come first, unchanged, and the record at position `p` has the id rule's id for length `p`, the shared `ts`, and its own request's fields |
| `App.AddAllFromEmpty` | src/app.py:6-17 | from an empty list the ids are "0", "2", "3", …, pairwise distinct, and every task carries the same process-wide `created_at` |
| `App.NewIdOnlyCountsTasks` | src/app.py:13-16 | the new record depends only on how many tasks were loaded, not on their ids |
| `App.NewIdRepeatsExactly` | src/app.py:11-16 | for every loaded list, the new record repeats a loaded task's id exactly when some loaded task already holds the decimal text of the rule's number |
| `App.NewIdCanRepeatLoadedId` | src/app.py:11-16 | a loaded list whose one task has id "2" receives a second task with id "2" |

## Left out

- `src/storage.py` (`load_tasks`, `save_tasks`) is file I/O through `json`. `load_tasks` is the `TaskList` passed to `App.AddTask`, and the list saved is that object's `items` afterwards. `save_tasks` as written opens the file for writing and writes nothing, and it prints errors instead of raising them. None of this is modelled.
- `App.AddAll`: it assumes that each `add_task` call loads the list the previous call saved. `src/storage.py` does not do this. With no file, `save_tasks` does nothing, `load_tasks` returns `[]` every time, and every call hands out id "0". With a file, `save_tasks` opens it for writing, which empties it, and writes nothing. The next `json.load` then fails, `load_tasks` returns `None`, and `add_task` raises. `AddAllLayout` and `AddAllFromEmpty` describe a store that keeps what it is given.
- `App.AddTask`: it assumes `load_tasks` returned a list, which the `TaskList` argument stands for. When the file cannot be read or parsed, `load_tasks` returns `None`. `None == []` is false, so `len(None)` at `src/app.py:14` raises `TypeError`. A top-level JSON object gets past `len` but has no `.append`, so `src/app.py:17` raises `AttributeError`; so does a JSON string. These raising paths are not modelled.
- `src/cli.py` is left out: prompts, printing, `typer` exits and confirmation. It calls `add_task` with a list argument that `src/app.py` does not accept. It imports `complete_task`, `delete_task` and `list_tasks`, which no shown file defines, so they are not modelled.
- The clock: `ts` is computed once per process at `src/app.py:6`. The model takes it as a parameter, and `AddAll` passes the same parameter to every call.
- JSON decoding and `config.STORAGE_PATH` are I/O and foreign code. Values are modelled as already decoded.
- `isinstance(x, int)` is also true for Python booleans. The model keeps `Bool` apart from `Int`, so a task whose id is `True` is not counted by `GenerateId`.
- A list element that is not a dictionary would make `t.get` raise. The model's tasks are always dictionaries.
- `StrptimeYmd`: on `str` input, Python's `\d` also matches non-ASCII decimal digits, for example full-width digits. The model accepts ASCII digits only.
- `StrptimeYmd`: the time of day that `strptime` sets to midnight is not modelled, since `format_date` keeps only the date.
- `App.AddTask`: Python does not enforce the parameter annotations. The model takes title, description and due date as strings, and `completed` as a boolean.
