# Task bot core in Dafny

This project models the logic of `bot.py`, a Telegram bot that keeps a
per-chat task list in one SQLite table, and proves properties of that model.
It has two parts.

- **Input validation** is modelled as pure functions and lemmas:
  - `normalize_username`;
  - `parse_task_input` and the `TaskInput` record;
  - `current_username` and the creator handle that `/newtask` stores;
  - `format_task_row`.
- **The `tasks` table** is modelled as the class `Store.TaskTable`. It holds the rows as a
  sequence and the last AUTOINCREMENT id. Its methods are the statements the
  handlers run:
  - the INSERT of `/newtask`;
  - the lookup and UPDATE of `/done`.

  Its functions are the two SELECTs of `/tasks` and `/mytasks`. Both filter
  the rows and order them by `due_date ASC, priority DESC, id DESC`.

The modules follow the program's layers:

| file | module | what it holds |
|---|---|---|
| `wrappers.dfy` | `Wrappers` | `Option` and `Result` |
| `text.dfy` | `Text` | Python's `str.strip`, `str.split`, `str.lower`, `str.isdigit`/`int`/`str` on ASCII, and SQLite's BINARY ordering of TEXT |
| `dates.dfy` | `Dates` | the grammar that `datetime.strptime(s, "%Y-%m-%d")` accepts |
| `validation.dfy` | `Validation` | handles, the five-field parser, its round trip, the requesting user |
| `rows.dfy` | `Rows` | a table row, its rendering, the ORDER BY comparison |
| `listing.dfy` | `Listing` | the SELECT as a filter followed by a sort, and how it changes under INSERT and UPDATE |
| `store.dfy` | `Store` | the `TaskTable` class and the four handlers that use it: `/newtask`, `/tasks`, `/mytasks` and `/done` |
| `scenarios.dfy` | `Scenarios` | `/newtask` lines typed in the usage layout, and the two example lines `Ship report \| alice \| 2024-03-01 \| high \| urgent,q1` and `... \| urgent \| tag` |

### Behaviour that follows the code rather than the intent

Each point below follows what the code does, even where a reader of the
usage text would expect otherwise.

- **Priorities are ordered as strings.** `priority DESC` compares TEXT, so on
  the same due date `medium` comes first, then `low`, then `high`
  (`Rows.PriorityOrderIsByString`). The order is not high > medium > low.
- **Due dates are accepted as `strptime` accepts them and compared as text.**
  - A month or day may have one digit, so `2024-1-5` is accepted.
  - A day may be padded with a space, so `2024-01- 5` is accepted.
  - The year must have four digits and must not be `0000`.
  - The date must exist on the calendar.
  - The text is stored verbatim, so `2024-10-01` is listed before
    `2024-9-30` (`Rows.DueDateOrderIsByString`).
- **The assignee is never refused.**
  - A blank assignee becomes `@`.
  - `alice` becomes `@alice` (`Validation.AnyAssignee`).
- **`/done` on a task that is already done succeeds.** It sets `completed_at`
  again.
- **`/done` finds by id and chat, but updates by id only.** Its `UPDATE`
  names only the id. Ids are unique in the table, so only the task that was
  found changes (`Store.TaskTable.Done`).
- **`/mytasks` refuses only a missing user.** `current_username` never
  returns an empty string, so its `if not username` fires only when there is
  no user at all.

## Model

| member | source | states |
|---|---|---|
| Text.Strip | bot.py:65 | `str.strip()`: the result has no whitespace at either end. It is empty exactly when the input is all whitespace. It is no longer than the input, and every character in it comes from the input |
| Text.StripPadded | bot.py:65 | trimming any whitespace padding of a trimmed string gives that string back |
| Text.StripStripped | bot.py:65 | a trimmed string is left unchanged by `strip()` |
| Text.StripIdempotent | bot.py:65 | `strip()` applied twice equals `strip()` applied once |
| Text.Split | bot.py:70 | `split("\|")`: there is one more piece than separators, no piece contains `\|`, and joining the pieces with `\|` restores the input |
| Text.SplitJoin | bot.py:70 | splitting a join of separator-free pieces gives the pieces back |
| Text.Lower | bot.py:87 | `lower()` keeps the length and lowers each ASCII capital, leaving every other character alone |
| Text.LessIrreflexive | bot.py:184 | no TEXT value sorts before itself |
| Text.LessTransitive | bot.py:184 | the TEXT order is transitive |
| Text.LessTotal | bot.py:184 | two different TEXT values are always ordered |
| Text.LessAsymmetric | bot.py:184 | the TEXT order is asymmetric |
| Text.NatToDecimal | bot.py:104 | `str(n)`: a non-empty digit string with no leading zero, starting with `0` exactly for 0 |
| Text.DecimalRoundTrip | bot.py:226 | `int(str(n)) == n` |
| Text.DecimalValue | bot.py:226 | `int()` of an all-digit string, leading zeros allowed; `Text.DecimalRoundTrip` gives `int(str(n)) == n` and `Store.LeadingZero` shows a leading zero leaves the value unchanged |
| Text.IntToDecimal | bot.py:175 | `str(i)` has no whitespace at its ends. It reads back as `i`, with a minus sign for negative `i`, and its digits have no leading zero (a lone `0` only for 0), so with `Store.CanonicalDecimal` the spelling is the only one |
| Dates.DaysInMonth | bot.py:83 | a month has 28 to 31 days, and 29 exactly for February of a leap year |
| Dates.ParseDate | bot.py:82-85 | a date that parses is a real calendar date |
| Dates.YearField | bot.py:83 | a `%Y` field holds four digits, so its value is at most 9999 |
| Dates.MonthField | bot.py:83 | a `%m` field is between 1 and 12 |
| Dates.DayField | bot.py:83 | a `%d` field is between 1 and 31 |
| Dates.SpellParses | bot.py:82-85 | every calendar date, in every accepted spelling of month and day, parses back to itself |
| Dates.ValidDate | bot.py:83-85 | `strptime(due_date, "%Y-%m-%d")` succeeds; `Dates.SpellParses` and `Dates.ParsedIsSpelled` show it holds exactly for the spellings of calendar dates |
| Dates.ParsedIsSpelled | bot.py:82-85 | every accepted string is one of those spellings of the date it parses to, so the accepted strings are exactly the spellings |
| Dates.ValidDateShape | bot.py:82-85 | an accepted date is at least 8 characters long, starts and ends with a digit, and contains no `\|` |
| Dates.LeapDay | bot.py:83 | February 29 of year `y` is accepted if and only if `y` is a leap year |
| Dates.LeapDayAccepted | bot.py:83 | `2024-02-29` is accepted |
| Dates.LeapDayRejected | bot.py:83 | `2023-02-29` is refused |
| Dates.ShortFieldsAccepted | bot.py:83 | `2024-1-5` is accepted |
| Dates.SpacePaddedDayAccepted | bot.py:83 | `2024-01- 5` is accepted |
| Dates.YearZeroRejected | bot.py:83 | year `0000` is refused whatever the month and day |
| Dates.MonthThirteenRejected | bot.py:83 | month 13 is refused whatever the year and day |
| Dates.ShortYearRejected | bot.py:83 | a year that is not four characters long is refused |
| Validation.NormalizeUsername | bot.py:64-66 | the result starts with `@` and is trimmed. It is the trimmed input, with `@` added in front when the input did not already start with one. When the trimmed input starts with `@` it is returned unchanged, so `" @bob"` gives `"@bob"` |
| Validation.NormalizeKeepsHandle | bot.py:64-66 | a trimmed handle that starts with `@` is returned unchanged |
| Validation.NormalizeIdempotent | bot.py:64-66 | normalising twice equals normalising once |
| Validation.NormalizePadded | bot.py:64-66 | a padded name without `@` becomes `@` followed by the trimmed name |
| Validation.NormalizeEmpty | bot.py:64-66 | the empty string becomes `@` |
| Validation.StripAll | bot.py:70 | each field is the trimmed piece at the same position |
| Validation.Fields | bot.py:70 | there is one more field than there are `\|`, and every field is trimmed and free of `\|` |
| Validation.CheckFields | bot.py:76-97 | gives the first failure among empty title, bad date and bad priority, each as an if-and-only-if. On success it gives the record built from the fields, and that record is well-formed |
| Validation.ParseTaskInput | bot.py:69-97 | gives `WrongFieldCount` exactly when there are not four `\|`, then `EmptyTitle`, `BadDate` and `BadPriority` exactly in that order of precedence, and no other error. On success the record is field 1, the normalised field 2, field 3 verbatim, the lower-cased field 4 and field 5, and it is well-formed |
| Validation.JoinedFields | bot.py:70 | the trimmed fields of five `\|`-free pieces joined by `\|` are the trimmed pieces |
| Validation.PaddedFieldAt | bot.py:70 | whatever whitespace surrounds each typed field, the trimmed fields of the line are the fields as typed |
| Validation.ParsePadded | bot.py:69-97 | whatever whitespace surrounds each field, a line whose title, date and priority pass the checks parses to the trimmed fields, with the assignee normalised and the priority lower-cased |
| Validation.UsageLayout | bot.py:70 | fields typed as `title \| assignee \| date \| priority \| tags` form exactly the line whose fields are padded by one space around each `\|` |
| Validation.ParseRender | bot.py:69-97 | every well-formed record, typed in the usage format, parses back to itself |
| Validation.ParseFromFields | bot.py:69-97 | a line whose trimmed fields are those of a well-formed record parses to that record |
| Validation.RenderField | bot.py:70 | the trimmed fields of a typed line are the record's fields |
| Validation.AnyAssignee | bot.py:80 | whatever assignee is typed, the line is accepted and the assignee is stored normalised |
| Validation.UnknownPriority | bot.py:87-89 | a priority outside low, medium and high, in any letter case, refuses an otherwise valid line with `BadPriority` |
| Validation.CreatorHandle | bot.py:155 | the stored creator is a handle. It is the normalised username when the user has one |
| Validation.CurrentUsername | bot.py:169-175 | gives no handle exactly when there is no user. Otherwise it gives a handle, the normalised username when there is one |
| Validation.SyntheticHandle | bot.py:173-175 | a user without a username is known as `@user_<id>` |
| Validation.CurrentIsCreator | bot.py:155 | the requester's handle in `/mytasks` is the creator handle that `/newtask` stores for the same user |
| Rows.Completed | bot.py:237-245 | the UPDATE sets the status to `done` and `completed_at` to the timestamp, and leaves every other column unchanged |
| Rows.FormatTaskRow | bot.py:100-108 | the header, detail, tags and status lines joined by newlines; `Rows.FormatLines` states what each of the four lines shows |
| Rows.FormatLines | bot.py:100-108 | when the fields are single-line, the rendering has four lines. The third shows the tags, or `-` when there are none. The fourth shows the done label exactly when the status is `done` |
| Rows.Precedes | bot.py:184 | `ORDER BY due_date ASC, priority DESC, id DESC` under SQLite's BINARY comparison; the four lemmas below make it a strict total order on rows with distinct ids |
| Rows.PrecedesIrreflexive | bot.py:184 | no row comes before itself |
| Rows.PrecedesAsymmetric | bot.py:184 | two rows are never each before the other |
| Rows.PrecedesTransitive | bot.py:184 | the listing order is transitive |
| Rows.PrecedesTotal | bot.py:184 | rows with different ids are always ordered |
| Rows.PriorityOrderIsByString | bot.py:184 | on the same due date, `medium` comes before `low` and `low` before `high` |
| Rows.DueDateOrderIsByString | bot.py:184 | `2024-10-01` is listed before `2024-9-30` |
| Rows.EarlierDueFirst | bot.py:184 | a task due `2024-01-01` is listed before one due `2024-01-02`, whatever the priorities |
| Listing.Matches | bot.py:183 | `WHERE chat_id = ? AND status = 'open'`, plus `AND assignee_username = ?` for `/mytasks`; `Listing.Select` and `Listing.Query` keep exactly the matching rows |
| Listing.Select | bot.py:182-183 | the WHERE keeps exactly the rows of the chat that are open and, when an assignee is given, belong to that assignee. It keeps ids distinct |
| Listing.InsertSorted | bot.py:184 | adds the row to the listing as a permutation. A sorted listing stays sorted when the row's id is new |
| Listing.SortRows | bot.py:184 | the ORDER BY output is sorted and is a permutation of its input |
| Listing.Query | bot.py:180-187 | the SELECT is sorted. It holds exactly the matching rows, as a permutation of the WHERE result |
| Listing.SortedUnique | bot.py:184 | two sorted listings with the same rows are equal, so the ORDER BY fixes the order |
| Listing.QueryDetermined | bot.py:180-187 | any sorted listing of exactly the matching rows is the SELECT's result |
| Listing.Without | bot.py:237-245 | removes exactly the rows with the given id and keeps a sorted listing sorted |
| Listing.AssignedTo | bot.py:207 | keeps exactly the rows of the given assignee and keeps a sorted listing sorted |
| Listing.QueryAfterInsert | bot.py:144-164 | after an INSERT with a fresh id, the listing gains exactly that row in its sorted place, or is unchanged when the row does not match |
| Listing.QueryAfterComplete | bot.py:237-245 | after one row is completed, every listing loses exactly that row |
| Listing.MyTasksSliceOfTasks | bot.py:204-211 | the `/mytasks` listing is the `/tasks` listing restricted to the assignee, in the same order |
| Store.NewRow | bot.py:144-164 | the inserted row is open with no `completed_at`. It has the new id, the chat, the creator's id, the creator handle `normalize_username(username or "user_<id>")`, the insert time as `created_at`, and the parsed fields |
| Store.DoneArgument | bot.py:222-226 | gives a usage error exactly when there is not a single all-digit argument. Otherwise it gives `int` of the argument, which is the number whose canonical spelling is the argument when there is no leading zero |
| Store.LeadingZero | bot.py:226 | a leading zero does not change the value of a digit string |
| Store.PaddedArgument | bot.py:222-226 | any number of leading zeros before `str(n)` still gives id `n`, so `/done 007` means task 7 |
| Store.CanonicalDecimal | bot.py:226 | a digit string without a leading zero is the spelling of its value |
| Store.PositiveLead | bot.py:226 | a digit string without a leading zero has a value of at least 1 |
| Store.NewTaskInput | bot.py:129-140 | gives the usage error exactly when the trimmed line is empty. Otherwise it gives the result of parsing the trimmed line, and success yields a well-formed record |
| Store.AppendValid | bot.py:144-164 | appending an open row with id `lastId + 1` keeps ids ascending and the status and `completed_at` columns consistent |
| Store.UpdateValid | bot.py:237-245 | completing every row with an id keeps the table's invariant and keeps the rows parsed |
| Store.NewRowParsed | bot.py:144-164 | a row built from a parsed record holds a well-formed record |
| Store.AppendParsed | bot.py:144-164 | appending a parsed row keeps all rows parsed |
| Store.TaskTable.constructor | bot.py:41-61 | the table starts empty with no id used |
| Store.TaskTable.Distinct | bot.py:46 | a valid table has distinct ids |
| Store.TaskTable.NewTask | bot.py:128-166 | fails exactly as input validation fails, with the same error, and then the table is unchanged. On success it returns `lastId + 1`, which exceeds every existing id. It appends exactly the new row, and the chat's `/tasks` listing gains that row in its sorted place. The table invariant holds |
| Store.TaskTable.Insert | bot.py:144-164 | appends the row and advances the id counter to its id, which exceeds every existing id |
| Store.InChat | bot.py:228-231 | `SELECT * FROM tasks WHERE id = ? AND chat_id = ?` finds a row; `Store.TaskTable.Lookup` finds one exactly when `InChat` holds, and `Store.TaskTable.Done` succeeds exactly then |
| Store.TaskTable.Lookup | bot.py:228-231 | finds a task of this chat with this id exactly when one exists |
| Store.TaskTable.CompleteById | bot.py:237-245 | marks every row with the id done at `now` and leaves every other row unchanged |
| Store.TaskTable.Done | bot.py:221-247 | gives `Usage` exactly when the argument is malformed, and `NotFound` exactly when the chat has no task with that id; no other error occurs. On either error nothing changes. It succeeds exactly when the argument is well formed and the chat has a task with that id, whatever that task's status. On success exactly that task is completed, also when it was already done, and it leaves the chat's `/tasks` listing |
| Store.TaskTable.OpenTasks | bot.py:178-187 | `/tasks` is sorted and holds exactly the chat's open rows |
| Store.TaskTable.MyTasks | bot.py:197-211 | refuses with `UnknownUser` exactly when there is no user. Otherwise it is sorted and holds exactly the chat's open rows assigned to the requester's handle, and it equals `/tasks` restricted to that handle |
| Scenarios.MarchFirstValid | bot.py:82-85 | `2024-03-01` is accepted |
| Scenarios.UsageLineIsKept | bot.py:129 | a line typed in the usage layout, starting and ending with a visible character, reaches the parser unchanged after the trim of the whole line |
| Scenarios.UsageLineAccepted | bot.py:128-140 | a usage-layout line whose title, date and priority pass is accepted with the fields as typed, the assignee normalised and the priority lower-cased |
| Scenarios.UsageLineBadPriority | bot.py:128-140 | a usage-layout line with a valid title and date but a priority outside the three is refused with `BadPriority` |
| Scenarios.ShipReportAccepted | bot.py:128-140 | `Ship report \| alice \| 2024-03-01 \| high \| urgent,q1` is accepted as title `Ship report`, assignee `@alice`, due `2024-03-01`, priority `high`, tags `urgent,q1` |
| Scenarios.UrgentRefused | bot.py:128-140 | `Ship report \| alice \| 2024-03-01 \| urgent \| tag` is refused with `BadPriority` |
| Scenarios.StoreAccepted | bot.py:128-166 | on any table, a line the parser accepts appends exactly one row, built from the parsed fields, with the next id |
| Scenarios.ShipReportStored | bot.py:128-166 | on any table, a line read as that task (such as the line above) appends exactly one open row with the next id, assignee `@alice`, priority `high`, due date `2024-03-01`, tags `urgent,q1` and no `completed_at`; on a fresh table (`lastId` 0) that id is 1 |
| Scenarios.UrgentNotStored | bot.py:128-141 | the refused line stores nothing and uses no id |

## Left out

- The Telegram transport is not modelled, because it is I/O plumbing. This
  covers `Update`, the handler registration, polling, `async`, and the `/start`
  and `/help` texts.
- Reply texts, emoji wording in replies and the Markdown parse mode are not
  modelled. Errors are the `Validation.Error` enum, and `format_task_row`
  keeps its labels.
- The SQLite connection, `init_db`, `commit` and the database file are
  replaced by the in-memory `Store.TaskTable`.
- `CURRENT_TIMESTAMP` is a parameter `now`; the clock is outside the model.
- `load_dotenv`, environment variables, logging and `main` are process
  bootstrap.
- `" ".join(context.args)` is not modelled: `/newtask` receives the joined
  line, and `/done` receives the argument list.
- The `"\n\n"` join of a listing's rows and the reply for an empty listing
  are not modelled: they are presentation only.
- Unicode whitespace, case mapping and digits are not modelled. `strip`,
  `lower`, `isdigit` and `\d` are ASCII-only here.
- A missing `effective_user` in `/newtask` is not modelled: the code would
  crash on it, and `Store.TaskTable.NewTask` takes a user.
- Store.TaskTable.Done: SQLite's 64-bit integer limit on the `/done` argument
  and on ids is not modelled; ids are unbounded naturals.
- `created_at` is set to the parameter `now`; the program never reads it back.
- A NULL `tags` value is not modelled: `Rows.Task.tags` is a string, since
  `/newtask` always stores the parsed tags string and never NULL. The `or "-"`
  of `format_task_row` is modelled for the empty string only.
