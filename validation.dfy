/** Input validation of the task bot: the handle normaliser, the parser of
    the `/newtask` argument line and the requester's handle (bot.py). */
module Validation {
  import opened Wrappers
  import opened Text
  import opened Dates

  /** What parse_task_input hands to the INSERT. */
  datatype TaskInput = TaskInput(title: string, assignee: string, dueDate: string, priority: string, tags: string)

  /** Why a command is refused; each stands for one reply text of the bot. */
  datatype Error =
    | Usage            // empty /newtask line, or /done without one numeric id
    | WrongFieldCount  // not exactly five '|'-separated fields
    | EmptyTitle
    | BadDate
    | BadPriority
    | NotFound         // /done: no task with that id in this chat
    | UnknownUser      // /mytasks: the update carries no user

  /** A handle as the bot stores it: '@' first, no surrounding whitespace. */
  predicate IsHandle(h: string) {
    |h| > 0 && h[0] == '@' && IsStripped(h)
  }

  /** normalize_username: trim, then add a leading '@' unless there is one. */
  function NormalizeUsername(value: string): (r: string)
    ensures IsHandle(r)
    ensures r == Strip(value) || r == "@" + Strip(value)
    ensures |Strip(value)| > 0 && Strip(value)[0] == '@' ==> r == Strip(value)
  {
    var u := Strip(value);
    if |u| > 0 && u[0] == '@' then u
    else
      AtPrefixed(u);
      "@" + u
  }

  lemma {:induction false} AtPrefixed(u: string)
    requires IsStripped(u)
    ensures IsHandle("@" + u)
  {
    var h := "@" + u;
    assert h[|h| - 1] == (if u == [] then '@' else u[|u| - 1]);
  }

  /** A trimmed value that already starts with '@' is returned unchanged. */
  lemma {:induction false} NormalizeKeepsHandle(value: string)
    requires IsHandle(value)
    ensures NormalizeUsername(value) == value
  {
    assert [] + value + [] == value;
    StripPadded([], value, []);
  }

  /** Normalising twice is normalising once. */
  lemma {:induction false} NormalizeIdempotent(value: string)
    ensures NormalizeUsername(NormalizeUsername(value)) == NormalizeUsername(value)
  {
    NormalizeKeepsHandle(NormalizeUsername(value));
  }

  /** Whatever the whitespace around it, a name without '@' gains one. */
  lemma {:induction false} NormalizePadded(a: string, x: string, b: string)
    requires AllSpace(a) && AllSpace(b) && IsStripped(x) && (x == [] || x[0] != '@')
    ensures NormalizeUsername(a + x + b) == "@" + x
  {
    StripPadded(a, x, b);
  }

  /** An empty value normalises to the bare "@", which is not refused. */
  lemma {:induction false} NormalizeEmpty()
    ensures NormalizeUsername("") == "@"
  {
    assert AllSpace("");
  }

  predicate IsPriority(p: string) {
    p == "low" || p == "medium" || p == "high"
  }

  /** Python's [p.strip() for p in parts]. */
  function StripAll(parts: seq<string>): (r: seq<string>)
    ensures |r| == |parts|
    ensures forall i :: 0 <= i < |parts| ==> r[i] == Strip(parts[i])
  {
    if parts == [] then [] else [Strip(parts[0])] + StripAll(parts[1..])
  }

  /** [p.strip() for p in raw.split("|")]: one more field than there are
      '|', each trimmed and free of '|'. */
  function Fields(raw: string): (r: seq<string>)
    ensures |r| == Count(raw, '|') + 1
    ensures forall i :: 0 <= i < |r| ==> IsStripped(r[i]) && '|' !in r[i]
  {
    var parts := Split(raw, '|');
    var r := StripAll(parts);
    assert forall i :: 0 <= i < |r| ==> IsStripped(r[i]) && '|' !in r[i] by {
      forall i | 0 <= i < |r| ensures IsStripped(r[i]) && '|' !in r[i] {
        assert IsStripped(Strip(parts[i])) && '|' !in Strip(parts[i]);
      }
    }
    r
  }

  /** The i-th trimmed field of a /newtask line. */
  function Field(raw: string, i: nat): string
    requires Count(raw, '|') == 4 && i < 5
  {
    Fields(raw)[i]
  }

  /** What a successful parse guarantees about each field. */
  predicate WellFormed(t: TaskInput) {
    && t.title != [] && IsStripped(t.title) && '|' !in t.title
    && IsHandle(t.assignee) && '|' !in t.assignee
    && ValidDate(t.dueDate)
    && IsPriority(t.priority)
    && IsStripped(t.tags) && '|' !in t.tags
  }

  /** Normalising a trimmed assignee free of '|' adds no '|'. */
  lemma {:induction false} NormalizeTyped(typed: string)
    requires IsStripped(typed) && '|' !in typed
    ensures '|' !in NormalizeUsername(typed)
  {
    StripStripped(typed);
  }

  /** The checks parse_task_input applies to the five trimmed fields, in
      order: title, date, priority; the assignee is only normalised. */
  function CheckFields(parts: seq<string>): (r: Result<TaskInput, Error>)
    requires |parts| == 5
    requires forall i :: 0 <= i < 5 ==> IsStripped(parts[i]) && '|' !in parts[i]
    ensures r == Err(EmptyTitle) <==> parts[0] == ""
    ensures r == Err(BadDate) <==> parts[0] != "" && !ValidDate(parts[2])
    ensures r == Err(BadPriority) <==> parts[0] != "" && ValidDate(parts[2]) && !IsPriority(Lower(parts[3]))
    ensures r.Err? ==> r.error in {EmptyTitle, BadDate, BadPriority}
    ensures r.Ok? ==> r.value == TaskInput(parts[0], NormalizeUsername(parts[1]), parts[2], Lower(parts[3]), parts[4])
    ensures r.Ok? ==> WellFormed(r.value)
  {
    var title, assignee, dueDate, priority, tags := parts[0], parts[1], parts[2], parts[3], parts[4];
    NormalizeTyped(assignee);
    if title == "" then Err(EmptyTitle)
    else if !ValidDate(dueDate) then Err(BadDate)
    else if !IsPriority(Lower(priority)) then Err(BadPriority)
    else Ok(TaskInput(title, NormalizeUsername(assignee), dueDate, Lower(priority), tags))
  }

  /** parse_task_input: split on '|', trim every field, then refuse the line
      at the first check that fails, in the order field count, title, date,
      priority; the assignee and the tags are never refused. */
  function ParseTaskInput(raw: string): (r: Result<TaskInput, Error>)
    ensures r == Err(WrongFieldCount) <==> Count(raw, '|') != 4
    ensures r == Err(EmptyTitle) <==> Count(raw, '|') == 4 && Field(raw, 0) == ""
    ensures r == Err(BadDate) <==>
      Count(raw, '|') == 4 && Field(raw, 0) != "" && !ValidDate(Field(raw, 2))
    ensures r == Err(BadPriority) <==>
      Count(raw, '|') == 4 && Field(raw, 0) != "" && ValidDate(Field(raw, 2))
      && !IsPriority(Lower(Field(raw, 3)))
    ensures r.Err? ==> r.error in {WrongFieldCount, EmptyTitle, BadDate, BadPriority}
    ensures r.Ok? ==> Count(raw, '|') == 4 && WellFormed(r.value)
    ensures r.Ok? ==> r.value == TaskInput(Field(raw, 0), NormalizeUsername(Field(raw, 1)),
                                           Field(raw, 2), Lower(Field(raw, 3)), Field(raw, 4))
  {
    var parts := Fields(raw);
    if |parts| != 5 then Err(WrongFieldCount)
    else CheckFields(parts)
  }

  /** The /newtask line a user would type for t: the five fields in the
      order of the usage text "Title | @assignee | YYYY-MM-DD | priority | tags",
      each with a space on both sides. */
  function Render(t: TaskInput): string {
    Join([" " + t.title + " ", " " + t.assignee + " ", " " + t.dueDate + " ", " " + t.priority + " ", " " + t.tags + " "], '|')
  }

  /** Every field can be typed as it is: trimmed and without '|'. */
  predicate Typable(t: TaskInput) {
    && IsStripped(t.title) && '|' !in t.title
    && IsStripped(t.assignee) && '|' !in t.assignee
    && IsStripped(t.dueDate) && '|' !in t.dueDate
    && IsStripped(t.priority) && '|' !in t.priority
    && IsStripped(t.tags) && '|' !in t.tags
  }

  lemma {:induction false} PaddedField(x: string)
    requires IsStripped(x)
    ensures Strip(" " + x + " ") == x
  {
    assert AllSpace(" ");
    StripPadded(" ", x, " ");
  }

  lemma {:induction false} LowerPriority(p: string)
    requires IsPriority(p)
    ensures Lower(p) == p
  {
  }

  lemma {:induction false} RenderSplit(t: TaskInput)
    requires Typable(t)
    ensures Split(Render(t), '|')
         == [" " + t.title + " ", " " + t.assignee + " ", " " + t.dueDate + " ", " " + t.priority + " ", " " + t.tags + " "]
  {
    assert '|' !in " " + t.title + " ";
    assert '|' !in " " + t.assignee + " ";
    assert '|' !in " " + t.dueDate + " ";
    assert '|' !in " " + t.priority + " ";
    assert '|' !in " " + t.tags + " ";
    SplitJoin([" " + t.title + " ", " " + t.assignee + " ", " " + t.dueDate + " ", " " + t.priority + " ", " " + t.tags + " "], '|');
  }

  lemma {:induction false} WellFormedTypable(t: TaskInput)
    requires WellFormed(t)
    ensures Typable(t)
  {
    ValidDateShape(t.dueDate);
  }

  /** The five trimmed fields of a rendered line are the input's fields. */
  lemma {:induction false} RenderField(t: TaskInput, i: nat)
    requires Typable(t) && i < 5
    ensures Count(Render(t), '|') == 4
    ensures Field(Render(t), i) == [t.title, t.assignee, t.dueDate, t.priority, t.tags][i]
  {
    var x := [t.title, t.assignee, t.dueDate, t.priority, t.tags][i];
    assert IsStripped(x);
    RenderSplit(t);
    assert Split(Render(t), '|')[i] == " " + x + " ";
    PaddedField(x);
  }

  /** A line whose trimmed fields are those of a well-formed input parses
      to that input. */
  lemma {:induction false} ParseFromFields(raw: string, t: TaskInput)
    requires WellFormed(t)
    requires Count(raw, '|') == 4
    requires Field(raw, 0) == t.title && NormalizeUsername(Field(raw, 1)) == t.assignee
    requires Field(raw, 2) == t.dueDate && Lower(Field(raw, 3)) == t.priority && Field(raw, 4) == t.tags
    ensures ParseTaskInput(raw) == Ok(t)
  {
    var r := ParseTaskInput(raw);
    assert r != Err(WrongFieldCount) && r != Err(EmptyTitle);
    assert r != Err(BadDate) && r != Err(BadPriority);
  }

  /** The trimmed fields of five '|'-free pieces joined by '|' are the
      trimmed pieces, whatever whitespace surrounds them. */
  lemma {:induction false} JoinedFields(parts: seq<string>, i: nat)
    requires |parts| == 5 && i < 5
    requires forall j :: 0 <= j < 5 ==> '|' !in parts[j]
    ensures Count(Join(parts, '|'), '|') == 4
    ensures Field(Join(parts, '|'), i) == Strip(parts[i])
  {
    SplitJoin(parts, '|');
  }

  /** Every well-formed task input, typed in the usage format, parses back
      to itself; with the ensures of ParseTaskInput this makes WellFormed
      exactly the set of values the parser produces. */
  lemma {:induction false} ParseRender(t: TaskInput)
    requires WellFormed(t)
    ensures ParseTaskInput(Render(t)) == Ok(t)
  {
    WellFormedTypable(t);
    RenderField(t, 0);
    RenderField(t, 1);
    RenderField(t, 2);
    RenderField(t, 3);
    RenderField(t, 4);
    NormalizeKeepsHandle(t.assignee);
    LowerPriority(t.priority);
    ParseFromFields(Render(t), t);
  }

  /** The five fields as typed, each with its own whitespace before and after. */
  function PaddedFields(t: TaskInput, pre: seq<string>, post: seq<string>): (r: seq<string>)
    requires |pre| == 5 && |post| == 5
    ensures |r| == 5
  {
    [pre[0] + t.title + post[0], pre[1] + t.assignee + post[1], pre[2] + t.dueDate + post[2],
     pre[3] + t.priority + post[3], pre[4] + t.tags + post[4]]
  }

  lemma {:induction false} SpaceHasNoBar(a: string)
    requires AllSpace(a)
    ensures '|' !in a
  {
    assert forall k :: 0 <= k < |a| ==> a[k] != '|';
  }

  lemma {:induction false} PaddedPart(a: string, x: string, b: string)
    requires AllSpace(a) && AllSpace(b) && IsStripped(x) && '|' !in x
    ensures Strip(a + x + b) == x && '|' !in a + x + b
  {
    StripPadded(a, x, b);
    SpaceHasNoBar(a);
    SpaceHasNoBar(b);
  }

  /** The i-th trimmed field of a padded line is the i-th field as typed. */
  lemma {:induction false} PaddedFieldAt(t: TaskInput, pre: seq<string>, post: seq<string>, i: nat)
    requires Typable(t) && |pre| == 5 && |post| == 5 && i < 5
    requires forall j :: 0 <= j < 5 ==> AllSpace(pre[j]) && AllSpace(post[j])
    ensures Count(Join(PaddedFields(t, pre, post), '|'), '|') == 4
    ensures Field(Join(PaddedFields(t, pre, post), '|'), i) == [t.title, t.assignee, t.dueDate, t.priority, t.tags][i]
  {
    var parts := PaddedFields(t, pre, post);
    var x := [t.title, t.assignee, t.dueDate, t.priority, t.tags];
    forall j | 0 <= j < 5 ensures '|' !in parts[j] {
      assert parts[j] == pre[j] + x[j] + post[j];
      PaddedPart(pre[j], x[j], post[j]);
    }
    assert parts[i] == pre[i] + x[i] + post[i];
    PaddedPart(pre[i], x[i], post[i]);
    JoinedFields(parts, i);
  }

  /** All five trimmed fields of a padded line, at once. */
  lemma {:induction false} PaddedFieldsAll(t: TaskInput, pre: seq<string>, post: seq<string>)
    requires Typable(t) && |pre| == 5 && |post| == 5
    requires forall j :: 0 <= j < 5 ==> AllSpace(pre[j]) && AllSpace(post[j])
    ensures Count(Join(PaddedFields(t, pre, post), '|'), '|') == 4
    ensures Field(Join(PaddedFields(t, pre, post), '|'), 0) == t.title
    ensures Field(Join(PaddedFields(t, pre, post), '|'), 1) == t.assignee
    ensures Field(Join(PaddedFields(t, pre, post), '|'), 2) == t.dueDate
    ensures Field(Join(PaddedFields(t, pre, post), '|'), 3) == t.priority
    ensures Field(Join(PaddedFields(t, pre, post), '|'), 4) == t.tags
  {
    PaddedFieldAt(t, pre, post, 0);
    PaddedFieldAt(t, pre, post, 1);
    PaddedFieldAt(t, pre, post, 2);
    PaddedFieldAt(t, pre, post, 3);
    PaddedFieldAt(t, pre, post, 4);
  }

  /** Whatever whitespace surrounds each field, a line of five typable
      fields that passes the three checks parses to the trimmed fields,
      the assignee normalised and the priority lower-cased. */
  lemma {:induction false} ParsePadded(t: TaskInput, pre: seq<string>, post: seq<string>)
    requires Typable(t) && |pre| == 5 && |post| == 5
    requires forall i :: 0 <= i < 5 ==> AllSpace(pre[i]) && AllSpace(post[i])
    requires t.title != "" && ValidDate(t.dueDate) && IsPriority(Lower(t.priority))
    ensures ParseTaskInput(Join(PaddedFields(t, pre, post), '|'))
         == Ok(TaskInput(t.title, NormalizeUsername(t.assignee), t.dueDate, Lower(t.priority), t.tags))
  {
    var raw := Join(PaddedFields(t, pre, post), '|');
    PaddedFieldsAll(t, pre, post);
    var u := TaskInput(t.title, NormalizeUsername(t.assignee), t.dueDate, Lower(t.priority), t.tags);
    NormalizeTyped(t.assignee);
    assert WellFormed(u);
    ParseFromFields(raw, u);
  }

  /** The padding of the usage layout "Title | @assignee | YYYY-MM-DD | priority | tags":
      one space on each side of every '|'. */
  const UsageBefore: seq<string> := ["", " ", " ", " ", " "]
  const UsageAfter: seq<string> := [" ", " ", " ", " ", ""]

  /** Two fields padded by one space each side of a bar read as " | ". */
  lemma {:induction false} BarSpaced(x: string, y: string)
    ensures (x + " ") + "|" + (" " + y) == x + " | " + y
  {
    assert " " + "|" + " " == " | ";
  }

  /** Five pieces joined by a bar, written out. */
  lemma {:induction false} JoinFive(p: seq<string>)
    requires |p| == 5
    ensures Join(p, '|') == p[0] + "|" + (p[1] + "|" + (p[2] + "|" + (p[3] + "|" + p[4])))
  {
    assert Join(p[3..], '|') == p[3] + "|" + p[4] by {
      assert p[3..][1..] == [p[4]];
    }
    assert Join(p[2..], '|') == p[2] + "|" + Join(p[3..], '|') by {
      assert p[2..][1..] == p[3..];
    }
    assert Join(p[1..], '|') == p[1] + "|" + Join(p[2..], '|') by {
      assert p[1..][1..] == p[2..];
    }
  }

  lemma {:induction false} UsagePieces(t: TaskInput)
    ensures PaddedFields(t, UsageBefore, UsageAfter)
         == [t.title + " ", " " + t.assignee + " ", " " + t.dueDate + " ", " " + t.priority + " ", " " + t.tags]
  {
    assert "" + t.title + " " == t.title + " ";
    assert " " + t.tags + "" == " " + t.tags;
  }

  /** The fields typed in the usage layout form that line. */
  lemma {:induction false} UsageLayout(t: TaskInput)
    ensures Join(PaddedFields(t, UsageBefore, UsageAfter), '|')
         == t.title + " | " + t.assignee + " | " + t.dueDate + " | " + t.priority + " | " + t.tags
  {
    var p := PaddedFields(t, UsageBefore, UsageAfter);
    UsagePieces(t);
    JoinFive(p);
    var s3 := t.priority + " | " + t.tags;
    var s2 := t.dueDate + " | " + s3;
    var s1 := t.assignee + " | " + s2;
    BarSpaced(" " + t.priority, t.tags);
    BarSpaced(" " + t.dueDate, s3);
    BarSpaced(" " + t.assignee, s2);
    BarSpaced(t.title, s1);
  }

  /** Whatever is typed as the assignee, the line is accepted and the
      assignee stored in normalised form; so "alice" is stored as "@alice". */
  lemma {:induction false} AnyAssignee(t: TaskInput, typed: string)
    requires WellFormed(t) && IsStripped(typed) && '|' !in typed
    ensures ParseTaskInput(Render(t.(assignee := typed))) == Ok(t.(assignee := NormalizeUsername(typed)))
  {
    var u := t.(assignee := typed);
    var v := t.(assignee := NormalizeUsername(typed));
    WellFormedTypable(t);
    RenderField(u, 0);
    RenderField(u, 1);
    RenderField(u, 2);
    RenderField(u, 3);
    RenderField(u, 4);
    NormalizeTyped(typed);
    LowerPriority(t.priority);
    assert WellFormed(v);
    ParseFromFields(Render(u), v);
  }

  /** A priority outside low/medium/high in any letter case refuses an
      otherwise well-formed line. */
  lemma {:induction false} UnknownPriority(t: TaskInput, typed: string)
    requires WellFormed(t) && IsStripped(typed) && '|' !in typed && !IsPriority(Lower(typed))
    ensures ParseTaskInput(Render(t.(priority := typed))) == Err(BadPriority)
  {
    var u := t.(priority := typed);
    WellFormedTypable(t);
    assert Typable(u);
    RenderField(u, 0);
    RenderField(u, 2);
    RenderField(u, 3);
  }

  /** The Telegram user behind an update; an empty username counts as none,
      as in Python's truth test. */
  datatype User = User(id: int, username: Option<string>)

  predicate HasUsername(u: User) {
    u.username.Some? && u.username.value != ""
  }

  /** The creator handle newtask stores:
      normalize_username(username or f"user_{id}"). */
  function CreatorHandle(u: User): (h: string)
    ensures IsHandle(h)
    ensures HasUsername(u) ==> h == NormalizeUsername(u.username.value)
  {
    NormalizeUsername(if HasUsername(u) then u.username.value else "user_" + IntToDecimal(u.id))
  }

  /** current_username: no handle without a user; otherwise the user's
      normalised username, or "@user_<id>" when there is none. */
  function CurrentUsername(user: Option<User>): (r: Option<string>)
    ensures r.Some? <==> user.Some?
    ensures r.Some? ==> IsHandle(r.value)
    ensures user.Some? && HasUsername(user.value) ==> r == Some(NormalizeUsername(user.value.username.value))
  {
    match user
    case None => None
    case Some(u) =>
      if HasUsername(u) then Some(NormalizeUsername(u.username.value))
      else Some(NormalizeUsername("user_" + IntToDecimal(u.id)))
  }

  /** The synthetic handle of a user without a username is "@user_<id>". */
  lemma {:induction false} SyntheticHandle(u: User)
    requires !HasUsername(u)
    ensures CurrentUsername(Some(u)) == Some("@user_" + IntToDecimal(u.id))
    ensures CreatorHandle(u) == "@user_" + IntToDecimal(u.id)
  {
    var d := IntToDecimal(u.id);
    var x := "user_" + d;
    assert x[0] == 'u' && x[|x| - 1] == d[|d| - 1];
    StripStripped(x);
    assert NormalizeUsername(x) == "@" + x;
    assert "@" + x == "@user_" + d;
  }

  /** /mytasks looks tasks up under the very handle newtask records for the
      same user. */
  lemma {:induction false} CurrentIsCreator(u: User)
    ensures CurrentUsername(Some(u)) == Some(CreatorHandle(u))
  {
  }
}
