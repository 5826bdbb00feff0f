/** The two SELECTs behind /tasks and /mytasks (bot.py):
      SELECT * FROM tasks WHERE chat_id = ? AND status = 'open' [AND assignee_username = ?]
      ORDER BY due_date ASC, priority DESC, id DESC
    as a filter that keeps table order followed by a sort on Rows.Precedes. */
module Listing {
  import opened Wrappers
  import opened Rows

  /** The WHERE clause: /tasks has no assignee, /mytasks the requester's handle. */
  datatype Filter = Filter(chatId: int, assignee: Option<string>)

  predicate Matches(t: Task, f: Filter) {
    t.chatId == f.chatId && t.status == "open" && (f.assignee.Some? ==> t.assignee == f.assignee.value)
  }

  predicate DistinctIds(s: seq<Task>) {
    forall i, j :: 0 <= i < j < |s| ==> s[i].id != s[j].id
  }

  /** Listed in ORDER BY order: every row comes strictly before the later ones. */
  predicate Sorted(s: seq<Task>) {
    forall i, j :: 0 <= i < j < |s| ==> Precedes(s[i], s[j])
  }

  lemma {:induction false} DistinctCons(x: Task, s: seq<Task>)
    requires DistinctIds(s) && forall y :: y in s ==> y.id != x.id
    ensures DistinctIds([x] + s)
  {
    forall i, j | 0 <= i < j < |[x] + s| ensures ([x] + s)[i].id != ([x] + s)[j].id {
      if i == 0 {
        assert ([x] + s)[j] == s[j - 1];
      } else {
        assert ([x] + s)[i] == s[i - 1] && ([x] + s)[j] == s[j - 1];
      }
    }
  }

  /** The rows of the table the WHERE clause keeps, in table order. */
  function Select(rows: seq<Task>, f: Filter): (r: seq<Task>)
    ensures forall t :: t in r <==> t in rows && Matches(t, f)
    ensures DistinctIds(rows) ==> DistinctIds(r)
  {
    if rows == [] then []
    else
      var rest := Select(rows[1..], f);
      assert DistinctIds(rows) ==> DistinctIds([rows[0]] + rest) by {
        if DistinctIds(rows) {
          assert DistinctIds(rows[1..]);
          forall y | y in rest ensures y.id != rows[0].id {
            var j :| 0 <= j < |rows[1..]| && rows[1..][j] == y;
            assert rows[j + 1] == y;
          }
          DistinctCons(rows[0], rest);
        }
      }
      if Matches(rows[0], f) then
        assert rows == [rows[0]] + rows[1..];
        [rows[0]] + rest
      else
        rest
  }

  lemma {:induction false} SortedCons(x: Task, s: seq<Task>)
    requires Sorted(s)
    requires forall y :: y in s ==> Precedes(x, y)
    ensures Sorted([x] + s)
  {
    forall i, j | 0 <= i < j < |[x] + s| ensures Precedes(([x] + s)[i], ([x] + s)[j]) {
      assert ([x] + s)[j] == s[j - 1];
      if i > 0 {
        assert ([x] + s)[i] == s[i - 1];
      }
    }
  }

  /** x can join the sorted rows s: no row of s has its id. */
  predicate Fresh(x: Task, s: seq<Task>) {
    Sorted(s) && forall y :: y in s ==> y.id != x.id
  }

  lemma {:induction false} FrontSorted(x: Task, s: seq<Task>)
    requires Fresh(x, s) && s != [] && Precedes(x, s[0])
    ensures Sorted([x] + s)
  {
    forall y | y in s ensures Precedes(x, y) {
      var j :| 0 <= j < |s| && s[j] == y;
      if j > 0 {
        PrecedesTransitive(x, s[0], y);
      }
    }
    SortedCons(x, s);
  }

  lemma {:induction false} LaterSorted(x: Task, s: seq<Task>, rest: seq<Task>)
    requires Fresh(x, s) && s != [] && !Precedes(x, s[0])
    requires Sorted(rest) && multiset(rest) == multiset(s[1..]) + multiset{x}
    ensures Sorted([s[0]] + rest)
  {
    PrecedesTotal(x, s[0]);
    forall y | y in rest ensures Precedes(s[0], y) {
      assert y in multiset(rest);
      if y != x {
        assert y in multiset(s[1..]);
        var j :| 0 <= j < |s[1..]| && s[1..][j] == y;
        assert s[j + 1] == y;
      }
    }
    SortedCons(s[0], rest);
  }

  /** Places x before the first row it precedes. */
  function InsertSorted(x: Task, s: seq<Task>): (r: seq<Task>)
    ensures multiset(r) == multiset(s) + multiset{x}
    ensures Fresh(x, s) ==> Sorted(r)
  {
    if s == [] then [x]
    else if Precedes(x, s[0]) then
      assert Fresh(x, s) ==> Sorted([x] + s) by {
        if Fresh(x, s) {
          FrontSorted(x, s);
        }
      }
      [x] + s
    else
      assert Fresh(x, s) ==> Fresh(x, s[1..]);
      var rest := InsertSorted(x, s[1..]);
      assert s == [s[0]] + s[1..];
      assert Fresh(x, s) ==> Sorted([s[0]] + rest) by {
        if Fresh(x, s) {
          LaterSorted(x, s, rest);
        }
      }
      [s[0]] + rest
  }

  lemma {:induction false} HeadFresh(s: seq<Task>, rest: seq<Task>)
    requires DistinctIds(s) && s != []
    requires Sorted(rest) && multiset(rest) == multiset(s[1..])
    ensures Fresh(s[0], rest)
  {
    forall y | y in rest ensures y.id != s[0].id {
      assert y in multiset(s[1..]);
      var j :| 0 <= j < |s[1..]| && s[1..][j] == y;
      assert s[j + 1] == y;
    }
  }

  /** The ORDER BY: a sorted arrangement of the same rows. */
  function SortRows(s: seq<Task>): (r: seq<Task>)
    requires DistinctIds(s)
    ensures Sorted(r)
    ensures multiset(r) == multiset(s)
  {
    if s == [] then []
    else
      assert DistinctIds(s[1..]);
      var rest := SortRows(s[1..]);
      HeadFresh(s, rest);
      assert s == [s[0]] + s[1..];
      InsertSorted(s[0], rest)
  }

  /** The listing: exactly the matching rows, in ORDER BY order, each once. */
  function Query(rows: seq<Task>, f: Filter): (r: seq<Task>)
    requires DistinctIds(rows)
    ensures Sorted(r)
    ensures forall t :: t in r <==> t in rows && Matches(t, f)
    ensures multiset(r) == multiset(Select(rows, f))
  {
    var r := SortRows(Select(rows, f));
    assert forall t :: t in r <==> t in multiset(Select(rows, f));
    r
  }

  lemma {:induction false} SameMembersEmpty(a: seq<Task>, b: seq<Task>)
    requires forall t :: t in a <==> t in b
    ensures a == [] <==> b == []
  {
    if a != [] {
      assert a[0] in b;
    }
    if b != [] {
      assert b[0] in a;
    }
  }

  /** Two sorted arrangements of the same rows are the same sequence: the
      three sort keys leave no ties between rows of distinct ids. */
  lemma {:induction false} SortedUnique(a: seq<Task>, b: seq<Task>)
    requires Sorted(a) && Sorted(b)
    requires forall t :: t in a <==> t in b
    ensures a == b
  {
    SameMembersEmpty(a, b);
    if a != [] {
      if a[0] != b[0] {
        assert b[0] in a && a[0] in b;
        var k :| 0 <= k < |a| && a[k] == b[0];
        var m :| 0 <= m < |b| && b[m] == a[0];
        assert k > 0 && m > 0;
        PrecedesAsymmetric(a[0], b[0]);
        assert false;
      }
      forall t ensures t in a[1..] <==> t in b[1..] {
        if t in a[1..] {
          var i :| 0 <= i < |a[1..]| && a[1..][i] == t;
          assert Precedes(a[0], a[i + 1]);
          PrecedesIrreflexive(t);
          assert t in b;
        }
        if t in b[1..] {
          var i :| 0 <= i < |b[1..]| && b[1..][i] == t;
          assert Precedes(b[0], b[i + 1]);
          PrecedesIrreflexive(t);
          assert t in a;
        }
      }
      SortedUnique(a[1..], b[1..]);
      assert a == [a[0]] + a[1..] && b == [b[0]] + b[1..];
    }
  }

  /** The listing is the one sorted sequence of exactly the matching rows. */
  lemma {:induction false} QueryDetermined(rows: seq<Task>, f: Filter, listing: seq<Task>)
    requires DistinctIds(rows)
    requires Sorted(listing)
    requires forall t :: t in listing <==> t in rows && Matches(t, f)
    ensures listing == Query(rows, f)
  {
    SortedUnique(listing, Query(rows, f));
  }

  /** The listing without the row of the given id; a sorted listing stays sorted. */
  function Without(s: seq<Task>, id: nat): (r: seq<Task>)
    ensures forall t :: t in r <==> t in s && t.id != id
    ensures Sorted(s) ==> Sorted(r)
  {
    if s == [] then []
    else
      var rest := Without(s[1..], id);
      assert Sorted(s) ==> Sorted([s[0]] + rest) by {
        if Sorted(s) {
          assert Sorted(s[1..]);
          forall y | y in rest ensures Precedes(s[0], y) {
            var j :| 0 <= j < |s[1..]| && s[1..][j] == y;
            assert s[j + 1] == y;
          }
          SortedCons(s[0], rest);
        }
      }
      assert s == [s[0]] + s[1..];
      if s[0].id != id then [s[0]] + rest else rest
  }

  /** The listing restricted to one assignee; a sorted listing stays sorted. */
  function AssignedTo(s: seq<Task>, handle: string): (r: seq<Task>)
    ensures forall t :: t in r <==> t in s && t.assignee == handle
    ensures Sorted(s) ==> Sorted(r)
  {
    if s == [] then []
    else
      var rest := AssignedTo(s[1..], handle);
      assert Sorted(s) ==> Sorted([s[0]] + rest) by {
        if Sorted(s) {
          assert Sorted(s[1..]);
          forall y | y in rest ensures Precedes(s[0], y) {
            var j :| 0 <= j < |s[1..]| && s[1..][j] == y;
            assert s[j + 1] == y;
          }
          SortedCons(s[0], rest);
        }
      }
      assert s == [s[0]] + s[1..];
      if s[0].assignee == handle then [s[0]] + rest else rest
  }

  /** A new row with a fresh id joins a listing it matches at its sorted
      place and leaves every other listing as it was. */
  lemma {:induction false} QueryAfterInsert(rows: seq<Task>, t: Task, f: Filter)
    requires DistinctIds(rows)
    requires forall u :: u in rows ==> u.id != t.id
    ensures DistinctIds(rows + [t])
    ensures Matches(t, f) ==> Query(rows + [t], f) == InsertSorted(t, Query(rows, f))
    ensures !Matches(t, f) ==> Query(rows + [t], f) == Query(rows, f)
  {
    var after := rows + [t];
    forall i, j | 0 <= i < j < |after| ensures after[i].id != after[j].id {
      if j == |rows| {
        assert after[i] == rows[i];
      } else {
        assert after[i] == rows[i] && after[j] == rows[j];
      }
    }
    var before := Query(rows, f);
    assert forall u :: u in after <==> u in rows || u == t;
    if Matches(t, f) {
      var expected := InsertSorted(t, before);
      assert forall u :: u in expected <==> u in multiset(before) + multiset{t};
      SortedUnique(Query(after, f), expected);
    } else {
      SortedUnique(Query(after, f), before);
    }
  }

  /** Completing a row takes it out of every listing and changes nothing
      else in them. */
  lemma {:induction false} QueryAfterComplete(rows: seq<Task>, k: nat, now: Timestamp, f: Filter)
    requires DistinctIds(rows) && k < |rows|
    ensures DistinctIds(rows[k := Completed(rows[k], now)])
    ensures Query(rows[k := Completed(rows[k], now)], f) == Without(Query(rows, f), rows[k].id)
  {
    var after := rows[k := Completed(rows[k], now)];
    assert forall i :: 0 <= i < |after| ==> after[i].id == rows[i].id;
    forall u ensures u in after && Matches(u, f) <==> u in rows && Matches(u, f) && u.id != rows[k].id {
      if u in after && Matches(u, f) {
        var i :| 0 <= i < |after| && after[i] == u;
        assert i != k;
        assert u == rows[i];
      }
      if u in rows && Matches(u, f) && u.id != rows[k].id {
        var i :| 0 <= i < |rows| && rows[i] == u;
        assert after[i] == u;
      }
    }
    SortedUnique(Query(after, f), Without(Query(rows, f), rows[k].id));
  }

  /** The /mytasks listing is the /tasks listing of the same chat restricted
      to the requester's handle, in the same order. */
  lemma {:induction false} MyTasksSliceOfTasks(rows: seq<Task>, chatId: int, handle: string)
    requires DistinctIds(rows)
    ensures Query(rows, Filter(chatId, Some(handle))) == AssignedTo(Query(rows, Filter(chatId, None)), handle)
  {
    SortedUnique(Query(rows, Filter(chatId, Some(handle))), AssignedTo(Query(rows, Filter(chatId, None)), handle));
  }
}
