/** The task-list transforms of App.tsx, each a pure function from the old list to the new
    one, and what they promise about order, contents and identifiers. */
module TaskList {
  import opened Types
  import opened Lists
  import opened Gateway

  /** The category a task gets when the caller names none. */
  const DefaultCategory: string := "General"

  /** The view selector of the list. */
  datatype FilterMode = All | Active | Completed

  /** The identifiers in use. */
  function Ids(todos: seq<Todo>): set<string>
  {
    set t | t in todos :: t.id
  }

  /** No two tasks share an identifier. */
  predicate UniqueIds(todos: seq<Todo>)
  {
    forall i, j :: 0 <= i < j < |todos| ==> todos[i].id != todos[j].id
  }

  /** Identifiers that are new to the list and to one another, as random UUIDs are taken to be. */
  predicate FreshIds(ids: seq<string>, todos: seq<Todo>)
  {
    && (forall i :: 0 <= i < |ids| ==> ids[i] !in Ids(todos))
    && (forall i, j :: 0 <= i < j < |ids| ==> ids[i] != ids[j])
  }

  // ----- addTodo -----

  /** The new, not yet completed task goes in front of all the others, which keep their order. */
  function Add(todos: seq<Todo>, text: string, priority: Priority, category: string,
               id: string, createdAt: int): (r: seq<Todo>)
    ensures |r| == |todos| + 1 && r[1..] == todos
    ensures r[0].id == id && r[0].text == text && !r[0].completed
    ensures r[0].createdAt == createdAt && r[0].priority == priority && r[0].category == category
  {
    [Todo(id, text, false, createdAt, priority, category)] + todos
  }

  /** A fresh identifier keeps identifiers unique. */
  lemma AddKeepsUnique(todos: seq<Todo>, text: string, priority: Priority, category: string,
                       id: string, createdAt: int)
    requires UniqueIds(todos) && id !in Ids(todos)
    ensures UniqueIds(Add(todos, text, priority, category, id, createdAt))
  {
    var r := Add(todos, text, priority, category, id, createdAt);
    forall i, j | 0 <= i < j < |r| ensures r[i].id != r[j].id {
      if i == 0 {
        assert r[j] == todos[j - 1];
        assert r[j] in todos;
      } else {
        assert r[i] == todos[i - 1] && r[j] == todos[j - 1];
      }
    }
  }

  // ----- toggleTodo -----

  /** `toggleTodo` maps over the list: the flag flips on exactly the tasks carrying that id;
      nothing else in any task changes. */
  function Toggle(todos: seq<Todo>, id: string): (r: seq<Todo>)
    ensures |r| == |todos|
    ensures forall i :: 0 <= i < |r| ==>
      && r[i] == todos[i].(completed := r[i].completed)
      && (r[i].completed != todos[i].completed <==> todos[i].id == id)
  {
    seq(|todos|, i requires 0 <= i < |todos| =>
      if todos[i].id == id then todos[i].(completed := !todos[i].completed) else todos[i])
  }

  /** Toggling twice restores the list. */
  lemma ToggleTwice(todos: seq<Todo>, id: string)
    ensures Toggle(Toggle(todos, id), id) == todos
  {
    var r := Toggle(Toggle(todos, id), id);
    assert forall i :: 0 <= i < |todos| ==> r[i] == todos[i];
  }

  /** Toggling an identifier that is not in the list changes nothing. */
  lemma ToggleAbsent(todos: seq<Todo>, id: string)
    requires id !in Ids(todos)
    ensures Toggle(todos, id) == todos
  {
    var r := Toggle(todos, id);
    forall i | 0 <= i < |todos| ensures r[i] == todos[i] {
      assert todos[i] in todos;
    }
  }

  /** Toggling keeps the identifiers, so it keeps them unique. */
  lemma ToggleKeepsUnique(todos: seq<Todo>, id: string)
    ensures UniqueIds(Toggle(todos, id)) <==> UniqueIds(todos)
    ensures Ids(Toggle(todos, id)) == Ids(todos)
  {
    var r := Toggle(todos, id);
    forall x | x in Ids(r) ensures x in Ids(todos) {
      var i :| 0 <= i < |r| && r[i].id == x;
      assert todos[i] in todos;
    }
    forall x | x in Ids(todos) ensures x in Ids(r) {
      var i :| 0 <= i < |todos| && todos[i].id == x;
      assert r[i] in r;
    }
  }

  // ----- deleteTodo -----

  /** `deleteTodo` filters out every task carrying the id. */
  function Delete(todos: seq<Todo>, id: string): (r: seq<Todo>)
    ensures forall t :: t in r <==> t in todos && t.id != id
  {
    Where(todos, (t: Todo) => t.id != id)
  }

  /** Deleting keeps the survivors in their original relative order. */
  lemma DeleteKeepsOrder(a: seq<Todo>, b: seq<Todo>, id: string)
    ensures Delete(a + b, id) == Delete(a, id) + Delete(b, id)
  {
    WhereAppend(a, b, (t: Todo) => t.id != id);
  }

  /** Deleting an identifier that is not in the list changes nothing. */
  lemma DeleteAbsent(todos: seq<Todo>, id: string)
    requires id !in Ids(todos)
    ensures Delete(todos, id) == todos
  {
    WhereAll(todos, (t: Todo) => t.id != id);
  }

  /** With unique identifiers, deleting one that is present removes exactly one task. */
  lemma DeleteOne(todos: seq<Todo>, id: string)
    requires UniqueIds(todos) && id in Ids(todos)
    ensures |Delete(todos, id)| == |todos| - 1
  {
    var k :| 0 <= k < |todos| && todos[k].id == id;
    var a, b := todos[..k], todos[k + 1..];
    assert todos == a + [todos[k]] + b;
    forall t | t in a ensures t.id != id {
      var i :| 0 <= i < |a| && a[i] == t;
      assert todos[i] == t;
    }
    forall t | t in b ensures t.id != id {
      var i :| 0 <= i < |b| && b[i] == t;
      assert todos[k + 1 + i] == t;
    }
    DeleteKeepsOrder(a + [todos[k]], b, id);
    DeleteKeepsOrder(a, [todos[k]], id);
    DeleteAbsent(a, id);
    DeleteAbsent(b, id);
  }

  /** Deleting the task just added gives the list back. */
  lemma DeleteUndoesAdd(todos: seq<Todo>, text: string, priority: Priority, category: string,
                        id: string, createdAt: int)
    requires id !in Ids(todos)
    ensures Delete(Add(todos, text, priority, category, id, createdAt), id) == todos
  {
    var t := Todo(id, text, false, createdAt, priority, category);
    DeleteKeepsOrder([t], todos, id);
    DeleteAbsent(todos, id);
  }

  /** A task in front of a list adds its identifier to those of the list. */
  lemma UniqueCons(t: Todo, rest: seq<Todo>)
    ensures UniqueIds([t] + rest) <==> t.id !in Ids(rest) && UniqueIds(rest)
  {
    var s := [t] + rest;
    if UniqueIds(s) {
      forall u | u in rest ensures u.id != t.id {
        var i :| 0 <= i < |rest| && rest[i] == u;
        assert s[0] == t && s[i + 1] == u;
      }
      forall i, j | 0 <= i < j < |rest| ensures rest[i].id != rest[j].id {
        assert s[i + 1] == rest[i] && s[j + 1] == rest[j];
      }
    }
    if t.id !in Ids(rest) && UniqueIds(rest) {
      forall i, j | 0 <= i < j < |s| ensures s[i].id != s[j].id {
        assert s[j] == rest[j - 1] && s[j] in rest;
        if i > 0 {
          assert s[i] == rest[i - 1];
        }
      }
    }
  }

  /** Filtering by any predicate keeps identifiers unique. */
  lemma {:induction false} WhereKeepsUnique(todos: seq<Todo>, keep: Todo -> bool)
    requires UniqueIds(todos)
    ensures UniqueIds(Where(todos, keep))
  {
    if todos != [] {
      var rest := todos[1..];
      assert todos == [todos[0]] + rest;
      UniqueCons(todos[0], rest);
      WhereKeepsUnique(rest, keep);
      if keep(todos[0]) {
        var w := Where(rest, keep);
        forall u | u in w ensures u.id != todos[0].id {
          var i :| 0 <= i < |w| && w[i] == u;
          assert u in rest;
        }
        UniqueCons(todos[0], w);
      }
    }
  }

  /** Deleting keeps identifiers unique. */
  lemma DeleteKeepsUnique(todos: seq<Todo>, id: string)
    requires UniqueIds(todos)
    ensures UniqueIds(Delete(todos, id))
  {
    WhereKeepsUnique(todos, (t: Todo) => t.id != id);
  }

  // ----- filteredTodos, the counters and completionRate -----

  /** Whether a task is shown under a view mode. */
  predicate Shown(mode: FilterMode, t: Todo)
  {
    match mode
    case Active => !t.completed
    case Completed => t.completed
    case All => true
  }

  /** `filteredTodos`: the tasks shown under the mode, in list order. */
  function Filtered(todos: seq<Todo>, mode: FilterMode): (r: seq<Todo>)
    ensures mode == Active ==> forall t :: t in r <==> t in todos && !t.completed
    ensures mode == Completed ==> forall t :: t in r <==> t in todos && t.completed
    ensures |r| <= |todos|
  {
    Where(todos, (t: Todo) => Shown(mode, t))
  }

  /** The 'all' view is the whole list, unchanged. */
  lemma FilteredAll(todos: seq<Todo>)
    ensures Filtered(todos, All) == todos
  {
    WhereAll(todos, (t: Todo) => Shown(All, t));
  }

  /** Every view keeps list order. */
  lemma FilteredKeepsOrder(a: seq<Todo>, b: seq<Todo>, mode: FilterMode)
    ensures Filtered(a + b, mode) == Filtered(a, mode) + Filtered(b, mode)
  {
    WhereAppend(a, b, (t: Todo) => Shown(mode, t));
  }

  /** The 'Active' counter: how many tasks are not completed. */
  function ActiveCount(todos: seq<Todo>): nat
  {
    |Where(todos, (t: Todo) => !t.completed)|
  }

  /** The 'Done' counter: how many tasks are completed. */
  function DoneCount(todos: seq<Todo>): nat
  {
    |Where(todos, (t: Todo) => t.completed)|
  }

  /** The counters agree with the views, and active plus done is the total. */
  lemma CountsPartition(todos: seq<Todo>)
    ensures ActiveCount(todos) + DoneCount(todos) == |todos|
    ensures |Filtered(todos, Active)| == ActiveCount(todos)
    ensures |Filtered(todos, Completed)| == DoneCount(todos)
  {
    WhereSplit(todos, (t: Todo) => t.completed, (t: Todo) => !t.completed);
    WhereSame(todos, (t: Todo) => Shown(Active, t), (t: Todo) => !t.completed);
    WhereSame(todos, (t: Todo) => Shown(Completed, t), (t: Todo) => t.completed);
  }

  /** `completionRate`: the percentage of completed tasks, rounded half up, 0 for no tasks.
      Computed exactly on integers; the source divides in floating point first. */
  function CompletionRate(todos: seq<Todo>): (r: nat)
    ensures |todos| == 0 ==> r == 0
    ensures r <= 100
    ensures DoneCount(todos) == 0 ==> r == 0
    ensures |todos| > 0 && DoneCount(todos) == |todos| ==> r == 100
  {
    var n, d := |todos|, DoneCount(todos);
    if n > 0 then
      CountsPartition(todos);
      RoundedPercentBounds(d, n);
      (200 * d + n) / (2 * n)
    else 0
  }

  /** Rounding d/n per cent half up stays within 0..100 and hits both ends exactly. */
  lemma RoundedPercentBounds(d: nat, n: nat)
    requires 0 < n && d <= n
    ensures (200 * d + n) / (2 * n) <= 100
    ensures d == 0 ==> (200 * d + n) / (2 * n) == 0
    ensures d == n ==> (200 * d + n) / (2 * n) == 100
  {
    assert 200 * d + n < 2 * n * 101;
    DivBelow(200 * d + n, 2 * n, 101);
    if d == 0 {
      DivIs(n, 2 * n, 0);
    }
    if d == n {
      DivIs(201 * n, 2 * n, 100);
    }
  }

  /** Multiplication by a non-negative factor is monotone. */
  lemma MulMono(a: int, b: int, c: int)
    requires a >= 0 && b <= c
    ensures a * b <= a * c
  {
    assert a * c - a * b == a * (c - b);
  }

  /** A quotient is below any bound the dividend is below a multiple of. */
  lemma DivBelow(x: int, c: int, m: int)
    requires c > 0 && 0 <= x < c * m
    ensures x / c < m
  {
    if x / c >= m {
      MulMono(c, m, x / c);
    }
  }

  /** The quotient is m when the dividend lies in [c * m, c * (m + 1)). */
  lemma DivIs(x: int, c: int, m: int)
    requires c > 0 && c * m <= x < c * (m + 1)
    ensures x / c == m
  {
    var q := x / c;
    if q < m {
      MulMono(c, q + 1, m);
    }
    if q > m {
      MulMono(c, m + 1, q);
    }
  }

  // ----- handleBreakdown -----

  /** The category every subtask of `parent` gets. */
  function SubtaskCategory(parent: Todo): string
  {
    "Subtask of: " + parent.text
  }

  /** The tasks the breakdown's calls of `addTodo` create, one per subtask text, in call order. */
  function Children(parent: Todo, subs: seq<string>, ids: seq<string>, stamps: seq<int>): (cs: seq<Todo>)
    requires |ids| == |subs| && |stamps| == |subs|
    ensures |cs| == |subs|
  {
    seq(|subs|, i requires 0 <= i < |subs| =>
      Todo(ids[i], subs[i], false, stamps[i], parent.priority, SubtaskCategory(parent)))
  }

  /** The list once a breakdown of `parent` has settled: on a thrown failure it is untouched;
      otherwise the parent is filtered out and each subtask is prepended in turn, so the
      children stand in reverse order ahead of the remaining tasks. */
  function AfterBreakdown(todos: seq<Todo>, parent: Todo, reply: Reply<string>,
                          ids: seq<string>, stamps: seq<int>): (r: seq<Todo>)
    requires reply.Resolved? ==> |ids| == |reply.items| && |stamps| == |reply.items|
  {
    match reply
    case Threw => todos
    case Resolved(subs) => Reverse(Children(parent, subs, ids, stamps)) + Delete(todos, parent.id)
  }

  /** One step of `subs.forEach(addTodo)`: prepending child k to the reversed first k
      children gives the reversed first k + 1. */
  lemma PrependChild(parent: Todo, subs: seq<string>, ids: seq<string>, stamps: seq<int>,
                     k: nat, rest: seq<Todo>)
    requires |ids| == |subs| && |stamps| == |subs| && k < |subs|
    ensures var cs := Children(parent, subs, ids, stamps);
      Add(Reverse(cs[..k]) + rest, subs[k], parent.priority, SubtaskCategory(parent), ids[k], stamps[k])
      == Reverse(cs[..k + 1]) + rest
  {
    var cs := Children(parent, subs, ids, stamps);
    assert cs[..k + 1] == cs[..k] + [cs[k]];
    ReverseSnoc(cs[..k], cs[k]);
  }

  /** What a successful breakdown leaves: n children, the last subtask first, each new, with
      the parent's priority and the synthesized category; then the rest of the list without
      the parent. */
  lemma BreakdownLayout(todos: seq<Todo>, parent: Todo, subs: seq<string>,
                        ids: seq<string>, stamps: seq<int>)
    requires |ids| == |subs| && |stamps| == |subs|
    ensures var r := AfterBreakdown(todos, parent, Resolved(subs), ids, stamps);
      && |r| == |subs| + |Delete(todos, parent.id)|
      && r[|subs|..] == Delete(todos, parent.id)
      && forall i :: 0 <= i < |subs| ==>
        && r[i].text == subs[|subs| - 1 - i]
        && r[i].id == ids[|subs| - 1 - i]
        && r[i].createdAt == stamps[|subs| - 1 - i]
        && !r[i].completed
        && r[i].priority == parent.priority
        && r[i].category == "Subtask of: " + parent.text
  {
    var cs := Children(parent, subs, ids, stamps);
    var r := AfterBreakdown(todos, parent, Resolved(subs), ids, stamps);
    assert r == Reverse(cs) + Delete(todos, parent.id);
    assert r[|subs|..] == Delete(todos, parent.id);
    forall i | 0 <= i < |subs|
      ensures r[i] == cs[|subs| - 1 - i]
      ensures r[i] == Todo(ids[|subs| - 1 - i], subs[|subs| - 1 - i], false, stamps[|subs| - 1 - i],
                           parent.priority, SubtaskCategory(parent))
    {
    }
  }

  /** An empty subtask list still removes the parent and adds nothing. */
  lemma BreakdownEmpty(todos: seq<Todo>, parent: Todo)
    ensures AfterBreakdown(todos, parent, Resolved([]), [], []) == Delete(todos, parent.id)
    ensures parent.id in Ids(todos) ==> parent !in AfterBreakdown(todos, parent, Resolved([]), [], [])
  {
    var cs := Children(parent, [], [], []);
    assert Reverse(cs) == [];
    assert AfterBreakdown(todos, parent, Resolved([]), [], []) == [] + Delete(todos, parent.id);
  }

  /** Seen through the gateway's error handling: a listed parent survives a breakdown exactly
      when the remote call was rejected, so an unparseable answer deletes it. */
  lemma ParentSurvivesIffRejected(todos: seq<Todo>, parent: Todo, resp: Response<string>,
                                  ids: seq<string>, stamps: seq<int>)
    requires parent in todos
    requires resp.Answered? ==> || (resp.parsed.None? && ids == [] && stamps == [])
                                || (resp.parsed.Some? && |ids| == |resp.parsed.value| && |stamps| == |ids|)
    requires FreshIds(ids, todos)
    ensures parent in AfterBreakdown(todos, parent, Settle(resp), ids, stamps) <==> resp.Rejected?
  {
    var reply := Settle(resp);
    if reply.Resolved? {
      var subs := reply.items;
      var cs := Children(parent, subs, ids, stamps);
      var r := AfterBreakdown(todos, parent, reply, ids, stamps);
      assert r == Reverse(cs) + Delete(todos, parent.id);
      var rc := Reverse(cs);
      assert parent.id in Ids(todos);
      forall i | 0 <= i < |rc| ensures rc[i] != parent {
        assert rc[i] == cs[|cs| - 1 - i];
        assert rc[i].id == ids[|cs| - 1 - i];
      }
      assert parent !in Delete(todos, parent.id);
      assert parent !in rc;
    }
  }

  /** Two lists with unique identifiers and no identifier in common join into one. */
  lemma UniqueAppend(a: seq<Todo>, b: seq<Todo>)
    requires UniqueIds(a) && UniqueIds(b) && Ids(a) !! Ids(b)
    ensures UniqueIds(a + b)
  {
    var s := a + b;
    forall i, j | 0 <= i < j < |s| ensures s[i].id != s[j].id {
      if j < |a| {
        assert s[i] == a[i] && s[j] == a[j];
      } else if i >= |a| {
        assert s[i] == b[i - |a|] && s[j] == b[j - |a|];
      } else {
        assert s[i] == a[i] && s[i] in a;
        assert s[j] == b[j - |a|] && s[j] in b;
        assert s[i].id in Ids(a) && s[j].id in Ids(b);
      }
    }
  }

  /** With fresh identifiers for the children, a breakdown keeps identifiers unique. */
  lemma BreakdownKeepsUnique(todos: seq<Todo>, parent: Todo, reply: Reply<string>,
                             ids: seq<string>, stamps: seq<int>)
    requires reply.Resolved? ==> |ids| == |reply.items| && |stamps| == |reply.items|
    requires UniqueIds(todos)
    requires reply.Resolved? ==> FreshIds(ids, todos)
    ensures UniqueIds(AfterBreakdown(todos, parent, reply, ids, stamps))
  {
    if reply.Resolved? {
      var subs := reply.items;
      var cs := Children(parent, subs, ids, stamps);
      var rc := Reverse(cs);
      var rest := Delete(todos, parent.id);
      DeleteKeepsUnique(todos, parent.id);
      var n := |cs|;
      forall i, j | 0 <= i < j < n ensures rc[i].id != rc[j].id {
        assert rc[i] == cs[n - 1 - i] && rc[j] == cs[n - 1 - j];
      }
      forall x | x in Ids(rc) ensures x !in Ids(rest) {
        var i :| 0 <= i < n && rc[i].id == x;
        assert rc[i] == cs[n - 1 - i];
        assert x == ids[n - 1 - i];
      }
      UniqueAppend(rc, rest);
    }
  }

  /** Breaking down "Plan trip" (id "t1", priority high) into "Book flights", "Book hotel" and
      "Pack bags" drops "t1" and puts the three children ahead of the other task, last subtask
      first, all with priority high and category "Subtask of: Plan trip". */
  lemma BreakdownExample(other: Todo)
    requires other.id != "t1"
    ensures var parent := Todo("t1", "Plan trip", false, 0, High, "General");
      AfterBreakdown([parent, other], parent, Resolved(["Book flights", "Book hotel", "Pack bags"]),
                     ["a", "b", "c"], [1, 2, 3])
      == [ Todo("c", "Pack bags", false, 3, High, "Subtask of: Plan trip"),
           Todo("b", "Book hotel", false, 2, High, "Subtask of: Plan trip"),
           Todo("a", "Book flights", false, 1, High, "Subtask of: Plan trip"),
           other ]
  {
    var parent := Todo("t1", "Plan trip", false, 0, High, "General");
    var subs := ["Book flights", "Book hotel", "Pack bags"];
    var cs := Children(parent, subs, ["a", "b", "c"], [1, 2, 3]);
    DeleteKeepsOrder([parent], [other], "t1");
    assert Delete([parent, other], "t1") == [other] by {
      assert [parent, other] == [parent] + [other];
    }
    assert SubtaskCategory(parent) == "Subtask of: Plan trip";
    assert cs == [ Todo("a", "Book flights", false, 1, High, "Subtask of: Plan trip"),
                   Todo("b", "Book hotel", false, 2, High, "Subtask of: Plan trip"),
                   Todo("c", "Pack bags", false, 3, High, "Subtask of: Plan trip") ];
    var rc := Reverse(cs);
    assert rc == [cs[2], cs[1], cs[0]];
  }

  // ----- the suggestion-accept click handler -----

  /** Accepting a suggestion prepends the task it becomes. */
  lemma AcceptIsPrepend(todos: seq<Todo>, s: Suggestion, id: string, createdAt: int)
    ensures Add(todos, s.text, s.priority, s.category, id, createdAt) == [FromSuggestion(s, id, createdAt)] + todos
  {
  }
}
