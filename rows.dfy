/** One row of the `tasks` table, its rendering by format_task_row, and the
    `ORDER BY due_date ASC, priority DESC, id DESC` comparison of the two
    listings (bot.py). */
module Rows {
  import opened Wrappers
  import opened Text

  /** A CURRENT_TIMESTAMP value; the clock is outside the model. */
  type Timestamp = string

  /** A row of the tasks table. Every TEXT column that newtask fills is a
      string here, `completed_at` is NULL (None) until /done. */
  datatype Task = Task(
    id: nat,
    chatId: int,
    createdById: int,
    createdByUsername: string,
    title: string,
    assignee: string,
    dueDate: string,
    priority: string,
    tags: string,
    status: string,
    createdAt: Timestamp,
    completedAt: Option<Timestamp>)

  /** The row after `UPDATE tasks SET status = 'done', completed_at = now`. */
  function Completed(t: Task, now: Timestamp): (r: Task)
    ensures r.status == "done" && r.completedAt == Some(now)
    ensures r.(status := t.status, completedAt := t.completedAt) == t
  {
    t.(status := "done", completedAt := Some(now))
  }

  const DoneLabel := "\U{2705} done"
  const OpenLabel := "\U{1F7E1} open"

  /** `row["tags"] or "-"`. */
  function TagsText(tags: string): string {
    if tags == "" then "-" else tags
  }

  /** The done label only for status 'done', the open label for anything else. */
  function StatusLabel(status: string): string {
    if status == "done" then DoneLabel else OpenLabel
  }

  function HeaderLine(t: Task): string {
    "*#" + IntToDecimal(t.id) + "* " + t.title
  }

  function DetailLine(t: Task): string {
    "\U{1F464} " + t.assignee + " | \U{23F0} " + t.dueDate + " | \U{26A1} " + t.priority
  }

  function TagsLine(t: Task): string {
    "\U{1F3F7} " + TagsText(t.tags)
  }

  function StatusLine(t: Task): string {
    "Статус: " + StatusLabel(t.status)
  }

  /** format_task_row: four lines, header, details, tags, status. */
  function FormatTaskRow(t: Task): string {
    Join([HeaderLine(t), DetailLine(t), TagsLine(t), StatusLine(t)], '\n')
  }

  /** No field that is printed holds a line break. */
  predicate SingleLineFields(t: Task) {
    '\n' !in t.title && '\n' !in t.assignee && '\n' !in t.dueDate && '\n' !in t.priority && '\n' !in t.tags
  }

  lemma {:induction false} LinesHaveNoBreak(t: Task)
    requires SingleLineFields(t)
    ensures '\n' !in HeaderLine(t) && '\n' !in DetailLine(t) && '\n' !in TagsLine(t) && '\n' !in StatusLine(t)
  {
    var d := IntToDecimal(t.id);
    assert '\n' !in d by {
      if t.id >= 0 {
        assert forall k :: 0 <= k < |d| ==> IsDigit(d[k]);
      }
    }
    assert '\n' !in "*#" + d + "* " + t.title;
    assert '\n' !in "\U{1F464} " + t.assignee + " | \U{23F0} " + t.dueDate + " | \U{26A1} " + t.priority;
    assert '\n' !in "\U{1F3F7} " + TagsText(t.tags);
    assert '\n' !in "Статус: " + StatusLabel(t.status);
  }

  /** Read back line by line, the rendering of a row whose fields are
      single-line shows the tags, or "-" when there are none, on its third
      line and the done label on its last line exactly when the status is
      'done'. */
  lemma {:induction false} FormatLines(t: Task)
    requires SingleLineFields(t)
    ensures |Split(FormatTaskRow(t), '\n')| == 4
    ensures Split(FormatTaskRow(t), '\n')[0] == HeaderLine(t)
    ensures Split(FormatTaskRow(t), '\n')[1] == DetailLine(t)
    ensures Split(FormatTaskRow(t), '\n')[2] == "\U{1F3F7} " + (if t.tags == "" then "-" else t.tags)
    ensures Split(FormatTaskRow(t), '\n')[3] == (if t.status == "done" then "Статус: \U{2705} done" else "Статус: \U{1F7E1} open")
  {
    LinesHaveNoBreak(t);
    SplitJoin([HeaderLine(t), DetailLine(t), TagsLine(t), StatusLine(t)], '\n');
  }

  /** `a` is listed before `b`: earlier due date as SQLite compares TEXT,
      then the priority string that compares greater, then the larger id. */
  predicate Precedes(a: Task, b: Task) {
    Less(a.dueDate, b.dueDate)
    || (a.dueDate == b.dueDate
        && (Less(b.priority, a.priority) || (a.priority == b.priority && a.id > b.id)))
  }

  lemma {:induction false} PrecedesIrreflexive(a: Task)
    ensures !Precedes(a, a)
  {
    LessIrreflexive(a.dueDate);
    LessIrreflexive(a.priority);
  }

  lemma {:induction false} PrecedesAsymmetric(a: Task, b: Task)
    requires Precedes(a, b)
    ensures !Precedes(b, a)
  {
    if Less(a.dueDate, b.dueDate) {
      LessAsymmetric(a.dueDate, b.dueDate);
      LessIrreflexive(a.dueDate);
    } else if Less(b.priority, a.priority) {
      LessAsymmetric(b.priority, a.priority);
      LessIrreflexive(a.dueDate);
      LessIrreflexive(b.priority);
    } else {
      LessIrreflexive(a.dueDate);
      LessIrreflexive(a.priority);
    }
  }

  lemma {:induction false} PrecedesTransitive(a: Task, b: Task, c: Task)
    requires Precedes(a, b) && Precedes(b, c)
    ensures Precedes(a, c)
  {
    if Less(a.dueDate, b.dueDate) && Less(b.dueDate, c.dueDate) {
      LessTransitive(a.dueDate, b.dueDate, c.dueDate);
    } else if a.dueDate == b.dueDate == c.dueDate
           && Less(b.priority, a.priority) && Less(c.priority, b.priority) {
      LessTransitive(c.priority, b.priority, a.priority);
    }
  }

  /** Rows with different ids are always ordered: the id is the last key. */
  lemma {:induction false} PrecedesTotal(a: Task, b: Task)
    requires a.id != b.id
    ensures Precedes(a, b) || Precedes(b, a)
  {
    if a.dueDate != b.dueDate {
      LessTotal(a.dueDate, b.dueDate);
    } else if a.priority != b.priority {
      LessTotal(a.priority, b.priority);
    }
  }

  /** Because priorities are compared as strings, on the same due date a
      'medium' task is listed before a 'low' one, and a 'low' one before a
      'high' one. */
  lemma {:induction false} PriorityOrderIsByString(a: Task, b: Task, c: Task)
    requires a.dueDate == b.dueDate == c.dueDate
    requires a.priority == "medium" && b.priority == "low" && c.priority == "high"
    ensures Precedes(a, b) && Precedes(b, c) && Precedes(a, c)
  {
    assert Less("low", "medium");
    assert Less("high", "low");
    assert Less("high", "medium");
  }

  /** Due dates are compared as text: zero-padded dates of one format sort
      chronologically, but "2024-10-01" is listed before "2024-9-30". */
  lemma {:induction false} DueDateOrderIsByString(a: Task, b: Task)
    requires a.dueDate == "2024-10-01" && b.dueDate == "2024-9-30"
    ensures Precedes(a, b)
  {
    assert Less("2024-10-01", "2024-9-30") by {
      assert "2024-10-01"[..5] == "2024-9-30"[..5];
      assert Less("10-01", "9-30");
      assert "2024-10-01" == "2024-" + "10-01" && "2024-9-30" == "2024-" + "9-30";
      LessCommonPrefix("2024-", "10-01", "9-30");
    }
  }

  /** A task due 2024-01-01 is listed before one due 2024-01-02, whatever
      their priorities. */
  lemma {:induction false} EarlierDueFirst(a: Task, b: Task)
    requires a.dueDate == "2024-01-01" && b.dueDate == "2024-01-02"
    ensures Precedes(a, b)
  {
    assert Less("2024-01-01", "2024-01-02") by {
      assert Less("1", "2");
      assert "2024-01-01" == "2024-01-0" + "1" && "2024-01-02" == "2024-01-0" + "2";
      LessCommonPrefix("2024-01-0", "1", "2");
    }
  }

  lemma {:induction false} LessCommonPrefix(p: string, a: string, b: string)
    requires Less(a, b)
    ensures Less(p + a, p + b)
  {
    if p != [] {
      assert (p + a)[1..] == p[1..] + a && (p + b)[1..] == p[1..] + b;
      assert (p + a)[0] == p[0] == (p + b)[0];
      LessCommonPrefix(p[1..], a, b);
    } else {
      assert p + a == a && p + b == b;
    }
  }
}
