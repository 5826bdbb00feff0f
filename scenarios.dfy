/** Two example /newtask lines: one accepted and stored with the assignee
    normalised, one refused for its priority and not stored. */
module Scenarios {
  import opened Wrappers
  import opened Text
  import opened Dates
  import opened Validation
  import opened Rows
  import opened Store

  /** The fields of the accepted line, as typed. */
  const ShipTyped := TaskInput("Ship report", "alice", "2024-03-01", "high", "urgent,q1")
  /** "Ship report | alice | 2024-03-01 | high | urgent,q1" */
  const ShipLine := "Ship report" + " | " + "alice" + " | " + "2024-03-01" + " | " + "high" + " | " + "urgent,q1"
  /** What the parser makes of it. */
  const ShipTask := TaskInput("Ship report", "@alice", "2024-03-01", "high", "urgent,q1")

  /** The fields of the refused line, as typed. */
  const UrgentTyped := TaskInput("Ship report", "alice", "2024-03-01", "urgent", "tag")
  /** "Ship report | alice | 2024-03-01 | urgent | tag" */
  const UrgentLine := "Ship report" + " | " + "alice" + " | " + "2024-03-01" + " | " + "urgent" + " | " + "tag"

  lemma {:induction false} MarchFirstValid()
    ensures ValidDate("2024-03-01")
  {
    SpellParses(Date(2024, 3, 1), MonthPadded, DayPadded);
    assert YearText(2024) == "2024";
    assert MonthText(3, MonthPadded) == "03";
    assert DayText(1, DayPadded) == "01";
    assert "2024-03-01" == "2024" + "-" + "03" + "-" + "01";
  }

  /** A line in the usage layout whose title starts, and whose tags end,
      with a visible character is passed to the parser as it is. */
  lemma {:induction false} UsageLineKept(t: TaskInput)
    requires t.title != "" && !IsSpace(t.title[0]) && t.tags != "" && !IsSpace(t.tags[|t.tags| - 1])
    ensures Strip(Join(PaddedFields(t, UsageBefore, UsageAfter), '|')) == Join(PaddedFields(t, UsageBefore, UsageAfter), '|')
  {
    UsageLayout(t);
    var line := t.title + " | " + t.assignee + " | " + t.dueDate + " | " + t.priority + " | " + t.tags;
    assert line[0] == t.title[0];
    assert line[|line| - 1] == t.tags[|t.tags| - 1];
    StripStripped(line);
  }

  lemma {:induction false} UsagePadding()
    ensures forall i :: 0 <= i < 5 ==> AllSpace(UsageBefore[i]) && AllSpace(UsageAfter[i])
  {
  }

  lemma {:induction false} ShipTypable()
    ensures Typable(ShipTyped) && ShipTyped.title != "" && !IsSpace(ShipTyped.title[0])
    ensures ShipTyped.tags != "" && !IsSpace(ShipTyped.tags[|ShipTyped.tags| - 1])
  {
  }

  lemma {:induction false} UrgentTypable()
    ensures Typable(UrgentTyped) && UrgentTyped.title != "" && !IsSpace(UrgentTyped.title[0])
    ensures UrgentTyped.tags != "" && !IsSpace(UrgentTyped.tags[|UrgentTyped.tags| - 1])
  {
  }

  lemma {:induction false} AliceHandle(name: string)
    requires name == "alice"
    ensures NormalizeUsername(name) == "@alice"
  {
    assert name[0] == 'a' && name[|name| - 1] == 'e';
    StripStripped(name);
  }

  lemma {:induction false} PriorityWords()
    ensures Lower("high") == "high" && IsPriority("high")
    ensures Lower("urgent") == "urgent" && !IsPriority("urgent")
  {
  }

  /** Such a line is the joined padded fields, and /newtask hands it to the
      parser unchanged. */
  lemma {:induction false} UsageLineIsKept(t: TaskInput, line: string)
    requires t.title != "" && !IsSpace(t.title[0]) && t.tags != "" && !IsSpace(t.tags[|t.tags| - 1])
    requires line == t.title + " | " + t.assignee + " | " + t.dueDate + " | " + t.priority + " | " + t.tags
    ensures Join(PaddedFields(t, UsageBefore, UsageAfter), '|') == line
    ensures NewTaskInput(line) == ParseTaskInput(line)
  {
    UsageLayout(t);
    UsageLineKept(t);
    assert Strip(line) == line && line != [];
  }

  /** A /newtask line typed in the usage layout, with a title and a date
      and a priority that pass the checks, is accepted with the fields as
      typed, the assignee normalised and the priority lower-cased. */
  lemma {:induction false} UsageLineAccepted(t: TaskInput, line: string)
    requires Typable(t) && t.title != "" && !IsSpace(t.title[0]) && t.tags != "" && !IsSpace(t.tags[|t.tags| - 1])
    requires ValidDate(t.dueDate) && IsPriority(Lower(t.priority))
    requires line == t.title + " | " + t.assignee + " | " + t.dueDate + " | " + t.priority + " | " + t.tags
    ensures NewTaskInput(line) == Ok(TaskInput(t.title, NormalizeUsername(t.assignee), t.dueDate, Lower(t.priority), t.tags))
  {
    UsageLineIsKept(t, line);
    UsagePadding();
    ParsePadded(t, UsageBefore, UsageAfter);
  }

  /** The same line with a priority outside the three is refused with
      BadPriority, whatever the assignee and the tags. */
  lemma {:induction false} UsageLineBadPriority(t: TaskInput, line: string)
    requires Typable(t) && t.title != "" && !IsSpace(t.title[0]) && t.tags != "" && !IsSpace(t.tags[|t.tags| - 1])
    requires ValidDate(t.dueDate) && !IsPriority(Lower(t.priority))
    requires line == t.title + " | " + t.assignee + " | " + t.dueDate + " | " + t.priority + " | " + t.tags
    ensures NewTaskInput(line) == Err(BadPriority)
  {
    UsageLineIsKept(t, line);
    UsagePadding();
    PaddedFieldAt(t, UsageBefore, UsageAfter, 0);
    PaddedFieldAt(t, UsageBefore, UsageAfter, 2);
    PaddedFieldAt(t, UsageBefore, UsageAfter, 3);
  }

  /** "Ship report | alice | 2024-03-01 | high | urgent,q1" is accepted:
      assignee "@alice", due date, priority and tags as typed. */
  lemma {:induction false} ShipReportAccepted(line: string)
    requires line == ShipLine
    ensures NewTaskInput(line) == Ok(ShipTask)
  {
    ShipTypable();
    MarchFirstValid();
    PriorityWords();
    UsageLineAccepted(ShipTyped, line);
    AliceHandle(ShipTyped.assignee);
  }

  /** "Ship report | alice | 2024-03-01 | urgent | tag" is refused with
      BadPriority. */
  lemma {:induction false} UrgentRefused(line: string)
    requires line == UrgentLine
    ensures NewTaskInput(line) == Err(BadPriority)
  {
    UrgentTypable();
    MarchFirstValid();
    PriorityWords();
    UsageLineBadPriority(UrgentTyped, line);
  }

  /** /newtask with a line the parser accepts appends that line's fields as
      one open row with the next id, whatever the table holds. */
  method StoreAccepted(table: TaskTable, chatId: int, user: User, line: string, input: TaskInput, now: Timestamp) returns (r: Result<nat, Error>)
    requires table.Valid() && NewTaskInput(line) == Ok(input)
    modifies table
    ensures r == Ok(old(table.lastId) + 1) && table.Valid()
    ensures table.rows == old(table.rows) + [NewRow(r.value, chatId, user, input, now)]
  {
    r := table.NewTask(chatId, user, line, now);
  }

  /** /newtask with a line the parser reads as the ship report (ShipLine is
      one, by ShipReportAccepted) appends one open row with the next id,
      assignee "@alice" and no completed_at, whatever the table holds. */
  method ShipReportStored(table: TaskTable, chatId: int, user: User, line: string, now: Timestamp) returns (r: Result<nat, Error>)
    requires table.Valid() && NewTaskInput(line) == Ok(ShipTask)
    modifies table
    ensures r == Ok(old(table.lastId) + 1) && table.Valid()
    ensures table.rows == old(table.rows) + [NewRow(r.value, chatId, user, ShipTask, now)]
    ensures table.rows[|table.rows| - 1].assignee == "@alice" && table.rows[|table.rows| - 1].priority == "high"
    ensures table.rows[|table.rows| - 1].dueDate == "2024-03-01" && table.rows[|table.rows| - 1].tags == "urgent,q1"
    ensures table.rows[|table.rows| - 1].status == "open" && table.rows[|table.rows| - 1].completedAt == None
  {
    r := StoreAccepted(table, chatId, user, line, ShipTask, now);
  }

  /** /newtask with the refused line stores nothing. */
  method UrgentNotStored(chatId: int, user: User, now: Timestamp) returns (table: TaskTable, r: Result<nat, Error>)
    ensures r == Err(BadPriority) && table.Valid()
    ensures table.rows == [] && table.lastId == 0
  {
    table := new TaskTable();
    var line := UrgentLine;
    UrgentRefused(line);
    r := table.NewTask(chatId, user, line, now);
  }
}
