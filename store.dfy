/** The tasks table and the four handlers that use it (bot.py): /newtask
    inserts a row, /tasks and /mytasks select open rows of the chat, /done
    looks a row up in the chat and marks it done. */
module Store {
  import opened Wrappers
  import opened Text
  import opened Validation
  import opened Rows
  import opened Listing

  /** The row /newtask inserts: the columns it leaves out take their
      defaults, status 'open', created_at the current time, completed_at NULL. */
  function NewRow(id: nat, chatId: int, user: User, input: TaskInput, now: Timestamp): (t: Task)
    ensures t.id == id && t.chatId == chatId && t.status == "open" && t.completedAt == None
    ensures t.createdById == user.id && t.createdByUsername == CreatorHandle(user) && IsHandle(t.createdByUsername)
    ensures t.createdAt == now
    ensures t.title == input.title && t.assignee == input.assignee && t.dueDate == input.dueDate
    ensures t.priority == input.priority && t.tags == input.tags
  {
    Task(id, chatId, user.id, CreatorHandle(user), input.title, input.assignee, input.dueDate,
         input.priority, input.tags, "open", now, None)
  }

  /** The row holds what a successful /newtask could have stored. */
  predicate Parsed(t: Task) {
    WellFormed(TaskInput(t.title, t.assignee, t.dueDate, t.priority, t.tags)) && IsHandle(t.createdByUsername)
  }

  /** Some row of the chat carries the id: what `SELECT * FROM tasks WHERE
      id = ? AND chat_id = ?` finds. */
  predicate InChat(rows: seq<Task>, chatId: int, id: int) {
    exists i :: 0 <= i < |rows| && rows[i].id == id && rows[i].chatId == chatId
  }

  /** The /done argument check: exactly one argument, all digits. */
  function DoneArgument(args: seq<string>): (r: Result<nat, Error>)
    ensures r.Err? <==> |args| != 1 || !IsDigits(args[0])
    ensures r.Err? ==> r.error == Usage
    ensures r.Ok? ==> r.value == DecimalValue(args[0])
    ensures r.Ok? ==> NatToDecimal(r.value) == args[0] || args[0][0] == '0'
  {
    if |args| != 1 || !IsDigits(args[0]) then Err(Usage)
    else
      CanonicalDecimal(args[0]);
      Ok(DecimalValue(args[0]))
  }

  /** Leading zeros do not change int(s): "007" is read as 7. */
  lemma {:induction false} LeadingZero(s: string)
    requires forall k :: 0 <= k < |s| ==> IsDigit(s[k])
    ensures DecimalValue(['0'] + s) == DecimalValue(s)
  {
    if s == [] {
      assert (['0'] + s)[..0] == [];
    } else {
      var p := s[..|s| - 1];
      assert (['0'] + s)[..|s|] == ['0'] + p;
      LeadingZero(p);
    }
  }

  /** Every spelling of n with leading zeros is read back as n; together
      with DoneArgument this gives `/done 007` the id 7. */
  lemma {:induction false} PaddedArgument(zeros: nat, n: nat)
    ensures var s := seq(zeros, _ => '0') + NatToDecimal(n);
      DoneArgument([s]) == Ok(n)
  {
    var d := NatToDecimal(n);
    var s := seq(zeros, _ => '0') + d;
    if zeros == 0 {
      assert s == d;
    } else {
      var t := seq(zeros - 1, _ => '0') + d;
      assert s == ['0'] + t;
      PaddedArgument(zeros - 1, n);
      LeadingZero(t);
    }
    DecimalRoundTrip(n);
  }

  /** A digit string without a leading zero is the spelling of its value. */
  lemma {:induction false} CanonicalDecimal(s: string)
    requires IsDigits(s)
    ensures s[0] == '0' || NatToDecimal(DecimalValue(s)) == s
  {
    if s[0] != '0' {
      if |s| == 1 {
        assert DecimalValue(s) == DigitValue(s[0]) by {
          assert s[..0] == [];
        }
      } else {
        var p := s[..|s| - 1];
        assert IsDigits(p) && p[0] == s[0];
        CanonicalDecimal(p);
        var n := DecimalValue(s);
        var d := DigitValue(s[|s| - 1]);
        assert n == 10 * DecimalValue(p) + d;
        assert DecimalValue(p) >= 1 by {
          PositiveLead(p);
        }
        assert n / 10 == DecimalValue(p) && n % 10 == d;
        assert DigitChar(d) == s[|s| - 1];
        assert s == p + [s[|s| - 1]];
      }
    }
  }

  lemma {:induction false} PositiveLead(s: string)
    requires IsDigits(s) && s[0] != '0'
    ensures DecimalValue(s) >= 1
  {
    if |s| > 1 {
      var p := s[..|s| - 1];
      assert IsDigits(p) && p[0] == s[0];
      PositiveLead(p);
    } else {
      assert s[..0] == [];
    }
  }

  /** Ids are positive, handed out in increasing order and never above
      the counter; status is 'open' or 'done', and completed_at is set
      exactly for done rows. */
  ghost predicate ValidRows(rows: seq<Task>, lastId: nat) {
    && (forall i :: 0 <= i < |rows| ==> 1 <= rows[i].id <= lastId)
    && (forall i, j :: 0 <= i < j < |rows| ==> rows[i].id < rows[j].id)
    && (forall i :: 0 <= i < |rows| ==> rows[i].status in {"open", "done"})
    && (forall i :: 0 <= i < |rows| ==> (rows[i].status == "done" <==> rows[i].completedAt.Some?))
  }

  /** Appending an open row under the next id keeps the table valid. */
  lemma {:induction false} AppendValid(rows: seq<Task>, lastId: nat, t: Task)
    requires ValidRows(rows, lastId)
    requires t.id == lastId + 1 && t.status == "open" && t.completedAt == None
    ensures ValidRows(rows + [t], lastId + 1)
    ensures forall u :: u in rows ==> u.id < t.id
  {
    var after := rows + [t];
    forall i, j | 0 <= i < j < |after| ensures after[i].id < after[j].id {
      assert after[i] == rows[i];
      if j < |rows| {
        assert after[j] == rows[j];
      }
    }
    forall i | 0 <= i < |after|
      ensures 1 <= after[i].id <= lastId + 1 && after[i].status in {"open", "done"}
      ensures after[i].status == "done" <==> after[i].completedAt.Some?
    {
      if i < |rows| {
        assert after[i] == rows[i];
      }
    }
  }

  /** Marking rows done keeps the table valid and every row's parsed fields. */
  lemma {:induction false} UpdateValid(rows: seq<Task>, lastId: nat, id: nat, now: Timestamp, after: seq<Task>)
    requires ValidRows(rows, lastId) && |after| == |rows|
    requires forall i :: 0 <= i < |rows| ==>
      after[i] == (if rows[i].id == id then Completed(rows[i], now) else rows[i])
    ensures ValidRows(after, lastId)
    ensures AllRowsParsed(rows) ==> AllRowsParsed(after)
  {
    assert forall i :: 0 <= i < |rows| ==> after[i].id == rows[i].id;
    if AllRowsParsed(rows) {
      forall t | t in after ensures Parsed(t) {
        var i :| 0 <= i < |after| && after[i] == t;
        assert Parsed(rows[i]);
      }
    }
  }

  /** The argument line of /newtask after trimming: empty is a usage
      error, otherwise it is what the parser makes of it. */
  function NewTaskInput(line: string): (r: Result<TaskInput, Error>)
    ensures r == Err(Usage) <==> Strip(line) == ""
    ensures Strip(line) != "" ==> r == ParseTaskInput(Strip(line))
    ensures r.Ok? ==> WellFormed(r.value)
  {
    var raw := Strip(line);
    if raw == "" then Err(Usage)
    else
      var r := ParseTaskInput(raw);
      assert r.Err? ==> r.error != Usage;
      r
  }

  /** Every row came through the /newtask parser. */
  ghost predicate AllRowsParsed(rows: seq<Task>) {
    forall t :: t in rows ==> Parsed(t)
  }

  lemma {:induction false} NewRowParsed(id: nat, chatId: int, user: User, input: TaskInput, now: Timestamp)
    requires WellFormed(input)
    ensures Parsed(NewRow(id, chatId, user, input, now))
  {
    var t := NewRow(id, chatId, user, input, now);
    assert TaskInput(t.title, t.assignee, t.dueDate, t.priority, t.tags) == input;
  }

  lemma {:induction false} AppendParsed(rows: seq<Task>, t: Task)
    requires AllRowsParsed(rows) && Parsed(t)
    ensures AllRowsParsed(rows + [t])
  {
    assert forall u :: u in rows + [t] ==> u in rows || u == t;
  }

  /** The tasks table of the database; `lastId` is the AUTOINCREMENT
      counter, the largest id ever handed out. */
  class TaskTable {
    var rows: seq<Task>
    var lastId: nat

    ghost predicate Valid()
      reads this
    {
      ValidRows(rows, lastId)
    }

    ghost predicate AllParsed()
      reads this
    {
      AllRowsParsed(rows)
    }

    /** init_db on a fresh database. */
    constructor ()
      ensures Valid() && AllParsed()
      ensures rows == [] && lastId == 0
    {
      rows := [];
      lastId := 0;
    }

    lemma {:induction false} Distinct()
      requires Valid()
      ensures DistinctIds(rows)
    {
    }

    /** /newtask: a line refused by NewTaskInput stores nothing; otherwise
        a row with the next id is appended. */
    method NewTask(chatId: int, user: User, line: string, now: Timestamp) returns (r: Result<nat, Error>)
      requires Valid()
      modifies this
      ensures Valid()
      ensures old(AllParsed()) ==> AllParsed()
      ensures r.Err? <==> NewTaskInput(line).Err?
      ensures r.Err? ==> r.error == NewTaskInput(line).error && rows == old(rows) && lastId == old(lastId)
      ensures r.Ok? ==> r.value == old(lastId) + 1 == lastId
      ensures r.Ok? ==> forall t :: t in old(rows) ==> t.id < r.value
      ensures r.Ok? ==> rows == old(rows) + [NewRow(r.value, chatId, user, NewTaskInput(line).value, now)]
      ensures r.Ok? ==> OpenTasks(chatId) == InsertSorted(rows[|rows| - 1], old(OpenTasks(chatId)))
    {
      var input := NewTaskInput(line);
      if input.Err? {
        return Err(input.error);
      }
      var id := lastId + 1;
      var row := NewRow(id, chatId, user, input.value, now);
      NewRowParsed(id, chatId, user, input.value, now);
      Distinct();
      ghost var before := rows;
      Insert(row);
      QueryAfterInsert(before, row, Filter(chatId, None));
      r := Ok(id);
    }

    /** The INSERT: the row takes the next id of the AUTOINCREMENT counter. */
    method Insert(row: Task)
      requires Valid()
      requires row.id == lastId + 1 && row.status == "open" && row.completedAt == None
      modifies this
      ensures Valid()
      ensures old(AllParsed()) && Parsed(row) ==> AllParsed()
      ensures rows == old(rows) + [row] && lastId == row.id
      ensures forall t :: t in old(rows) ==> t.id < row.id
    {
      AppendValid(rows, lastId, row);
      if AllRowsParsed(rows) && Parsed(row) {
        AppendParsed(rows, row);
      }
      rows := rows + [row];
      lastId := row.id;
    }

    /** The SELECT of /done: the first row with this id in this chat. */
    method Lookup(chatId: int, id: int) returns (found: Option<Task>)
      ensures found.Some? ==> found.value in rows && found.value.id == id && found.value.chatId == chatId
      ensures found.None? <==> !InChat(rows, chatId, id)
    {
      var i := 0;
      while i < |rows|
        invariant 0 <= i <= |rows|
        invariant !InChat(rows[..i], chatId, id)
      {
        if rows[i].id == id && rows[i].chatId == chatId {
          return Some(rows[i]);
        }
        assert rows[..i + 1] == rows[..i] + [rows[i]];
        i := i + 1;
      }
      assert rows[..i] == rows;
      found := None;
    }

    /** The UPDATE of /done: every row with this id, whatever its chat,
        becomes done at `now`. */
    method CompleteById(id: nat, now: Timestamp)
      requires Valid()
      modifies this
      ensures Valid()
      ensures old(AllParsed()) ==> AllParsed()
      ensures lastId == old(lastId) && |rows| == |old(rows)|
      ensures forall i :: 0 <= i < |rows| ==>
        rows[i] == (if old(rows)[i].id == id then Completed(old(rows)[i], now) else old(rows)[i])
    {
      var updated := rows;
      var i := 0;
      while i < |rows|
        invariant 0 <= i <= |rows| && |updated| == |rows|
        invariant forall j :: 0 <= j < i ==>
          updated[j] == (if rows[j].id == id then Completed(rows[j], now) else rows[j])
        invariant forall j :: i <= j < |rows| ==> updated[j] == rows[j]
      {
        if rows[i].id == id {
          updated := updated[i := Completed(rows[i], now)];
        }
        i := i + 1;
      }
      UpdateValid(rows, lastId, id, now, updated);
      rows := updated;
    }

    /** /done: a usage error unless there is exactly one numeric argument;
        not found unless the chat has a task with that id; otherwise that
        task is marked done at `now`, also when it was done already. */
    method Done(chatId: int, args: seq<string>, now: Timestamp) returns (r: Result<nat, Error>)
      requires Valid()
      modifies this
      ensures Valid()
      ensures old(AllParsed()) ==> AllParsed()
      ensures lastId == old(lastId)
      ensures r == Err(Usage) <==> DoneArgument(args).Err?
      ensures r == Err(NotFound) <==>
        DoneArgument(args).Ok? && !InChat(old(rows), chatId, DoneArgument(args).value)
      ensures r.Ok? <==> DoneArgument(args).Ok? && InChat(old(rows), chatId, DoneArgument(args).value)
      ensures r.Err? ==> r.error in {Usage, NotFound} && rows == old(rows)
      ensures r.Ok? ==> r == DoneArgument(args)
      ensures r.Ok? ==> exists k :: (0 <= k < |old(rows)| && old(rows)[k].id == r.value
        && old(rows)[k].chatId == chatId && rows == old(rows)[k := Completed(old(rows)[k], now)])
      ensures r.Ok? ==> OpenTasks(chatId) == Without(old(OpenTasks(chatId)), r.value)
    {
      var arg := DoneArgument(args);
      if arg.Err? {
        return Err(Usage);
      }
      var id := arg.value;
      var row := Lookup(chatId, id);
      if row.None? {
        return Err(NotFound);
      }
      ghost var k :| 0 <= k < |rows| && rows[k] == row.value;
      ghost var before := rows;
      Distinct();
      CompleteById(id, now);
      forall i | 0 <= i < |rows| ensures rows[i] == before[k := Completed(before[k], now)][i] {
        if i != k {
          assert before[i].id != id by {
            if i < k {
              assert before[i].id < before[k].id;
            } else {
              assert before[k].id < before[i].id;
            }
          }
        }
      }
      assert rows == before[k := Completed(before[k], now)];
      QueryAfterComplete(before, k, now, Filter(chatId, None));
      r := Ok(id);
    }

    /** /tasks: the chat's open rows by due date, priority string (greater
        first) and id (greater first). */
    function OpenTasks(chatId: int): (r: seq<Task>)
      reads this
      requires Valid()
      ensures Sorted(r)
      ensures forall t :: t in r <==> t in rows && t.chatId == chatId && t.status == "open"
    {
      Distinct();
      Query(rows, Filter(chatId, None))
    }

    /** /mytasks: no listing without a user; otherwise the chat's open rows
        assigned to the user's handle, in the /tasks order. */
    function MyTasks(chatId: int, user: Option<User>): (r: Result<seq<Task>, Error>)
      reads this
      requires Valid()
      ensures r.Err? <==> user.None?
      ensures r.Err? ==> r.error == UnknownUser
      ensures r.Ok? ==> Sorted(r.value)
      ensures r.Ok? ==> forall t :: t in r.value <==>
        t in rows && t.chatId == chatId && t.status == "open" && t.assignee == CurrentUsername(user).value
      ensures r.Ok? ==> r.value == AssignedTo(OpenTasks(chatId), CurrentUsername(user).value)
    {
      Distinct();
      if user.None? then Err(UnknownUser)
      else
        var handle := CurrentUsername(user).value;
        MyTasksSliceOfTasks(rows, chatId, handle);
        Ok(Query(rows, Filter(chatId, Some(handle))))
    }
  }
}
