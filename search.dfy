/**
  `search` (todotxtio.py:275-326): the todos, in their order, that meet
  every criterion given. A criterion left at `None` is ignored; a list or
  dict criterion matches a todo when one of its entries does.
 */
module Search {
  import opened Wrappers
  import opened Dicts
  import opened Todos

  /** The keyword arguments of `search`; `None` leaves a criterion out. */
  datatype Criteria = Criteria(
    text: Option<string>,
    completed: Option<bool>,
    completionDate: Option<string>,
    priority: Option<seq<string>>,
    creationDate: Option<string>,
    projects: Option<seq<string>>,
    contexts: Option<seq<string>>,
    tags: Option<Dict>)

  /** `search(todos)` with every criterion left at `None`. */
  const NoCriteria := Criteria(None, None, None, None, None, None, None, None)

  /** `p in s` on strings: `p` occurs in `s` as a contiguous piece. */
  predicate Contains(s: string, p: string)
    decreases |s|
  {
    p <= s || (s != [] && Contains(s[1..], p))
  }

  /** `p` occurs in `s` starting at position `i`. */
  predicate OccursAt(s: string, p: string, i: nat)
  {
    i <= |s| - |p| && s[i..i + |p|] == p
  }

  /** An occurrence of `p` in `s` is found by `Contains`. */
  lemma {:induction false} ContainsFrom(s: string, p: string, i: nat)
    requires OccursAt(s, p, i)
    ensures Contains(s, p)
    decreases i
  {
    if i == 0 {
      assert p <= s;
    } else {
      assert s[1..][i - 1..i - 1 + |p|] == p;
      ContainsFrom(s[1..], p, i - 1);
    }
  }

  /** Where `Contains` finds `p`: the first position of `s` holding it. */
  lemma {:induction false} ContainsWitness(s: string, p: string) returns (i: nat)
    requires Contains(s, p)
    ensures OccursAt(s, p, i)
    decreases |s|
  {
    if p <= s {
      i := 0;
      assert s[i..i + |p|] == p;
    } else {
      var j := ContainsWitness(s[1..], p);
      i := j + 1;
      assert s[i..i + |p|] == s[1..][j..j + |p|];
    }
  }

  /** `Contains` holds exactly when `p` occurs at some position of `s`. */
  lemma ContainsAt(s: string, p: string)
    ensures Contains(s, p) <==> exists i: nat :: OccursAt(s, p, i)
  {
    if Contains(s, p) {
      var i := ContainsWitness(s, p);
    }
    forall i: nat | OccursAt(s, p, i)
      ensures Contains(s, p)
    {
      ContainsFrom(s, p, i);
    }
  }

  /** `any(i in wanted for i in have)`. */
  predicate AnyIn(have: seq<string>, wanted: seq<string>)
  {
    exists i :: 0 <= i < |have| && have[i] in wanted
  }

  /** `any(tags[k] == v for k, v in wanted.items() if k in tags)`. */
  predicate AnyTag(tags: Dict, wanted: Dict)
  {
    exists i :: 0 <= i < |wanted| && Lookup(tags, wanted[i].0) == Some(wanted[i].1)
  }

  /** Every criterion that is not `None` holds of the todo. */
  predicate Matches(d: TodoDict, c: Criteria)
  {
    (c.text.Some? ==> Contains(d.text, c.text.value)) &&
    (c.completed.Some? ==> d.completed == c.completed.value) &&
    (c.completionDate.Some? ==> d.completionDate == c.completionDate) &&
    (c.priority.Some? ==> d.priority.Some? && d.priority.value in c.priority.value) &&
    (c.creationDate.Some? ==> d.creationDate == c.creationDate) &&
    (c.projects.Some? ==> AnyIn(d.projects, c.projects.value)) &&
    (c.contexts.Some? ==> AnyIn(d.contexts, c.contexts.value)) &&
    (c.tags.Some? ==> AnyTag(d.tags, c.tags.value))
  }

  /** The matching todos of `todos`, in order. */
  function Select(todos: seq<Todo>, c: Criteria): (r: seq<Todo>)
    reads set t | t in todos
    ensures forall i :: 0 <= i < |r| ==> r[i] in todos && Matches(r[i].ToDict(), c)
  {
    if todos == [] then []
    else
      var last := todos[|todos| - 1];
      var kept := Select(todos[..|todos| - 1], c);
      if Matches(last.ToDict(), c) then kept + [last] else kept
  }

  /**
    `search(todos, ...)`: one pass over the todos, each checked against the
    criteria once, the matching ones collected in order.
   */
  method Search(todos: seq<Todo>, c: Criteria) returns (results: seq<Todo>)
    ensures results == Select(todos, c)
  {
    results := [];
    for i := 0 to |todos|
      invariant results == Select(todos[..i], c)
    {
      var todo := todos[i];
      var textMatch, completedMatch, completionDateMatch, priorityMatch := true, true, true, true;
      var creationDateMatch, projectsMatch, contextsMatch, tagsMatch := true, true, true, true;
      if c.text.Some? {
        textMatch := Contains(todo.text, c.text.value);
      }
      if c.completed.Some? {
        completedMatch := todo.completed == c.completed.value;
      }
      if c.completionDate.Some? {
        completionDateMatch := todo.completionDate == c.completionDate;
      }
      if c.priority.Some? {
        priorityMatch := todo.priority.Some? && todo.priority.value in c.priority.value;
      }
      if c.creationDate.Some? {
        creationDateMatch := todo.creationDate == c.creationDate;
      }
      if c.projects.Some? {
        projectsMatch := AnyIn(todo.projects, c.projects.value);
      }
      if c.contexts.Some? {
        contextsMatch := AnyIn(todo.contexts, c.contexts.value);
      }
      if c.tags.Some? {
        tagsMatch := AnyTag(todo.tags, c.tags.value);
      }
      assert todos[..i + 1][..i] == todos[..i];
      if textMatch && completedMatch && completionDateMatch && priorityMatch &&
         creationDateMatch && projectsMatch && contextsMatch && tagsMatch {
        results := results + [todo];
      }
    }
    assert todos[..|todos|] == todos;
  }

  /** `a` is `b` with some elements left out, the others kept in order. */
  predicate IsSubsequence<T(==)>(a: seq<T>, b: seq<T>)
    decreases |b|
  {
    if a == [] then true
    else if b == [] then false
    else
      (a[|a| - 1] == b[|b| - 1] && IsSubsequence(a[..|a| - 1], b[..|b| - 1])) ||
      IsSubsequence(a, b[..|b| - 1])
  }

  /** A subsequence of `b` with one more element of `b` kept or left out. */
  lemma SubsequenceSnoc<T>(a: seq<T>, b: seq<T>, x: T)
    requires IsSubsequence(a, b)
    ensures IsSubsequence(a, b + [x]) && IsSubsequence(a + [x], b + [x])
  {
    assert (b + [x])[..|b|] == b;
    assert (a + [x])[..|a|] == a;
  }

  /** The result is a subsequence of the todos: nothing added, nothing reordered. */
  lemma {:induction false} SelectSubsequence(todos: seq<Todo>, c: Criteria)
    ensures IsSubsequence(Select(todos, c), todos)
    decreases |todos|
  {
    if todos != [] {
      var init := todos[..|todos| - 1];
      SelectSubsequence(init, c);
      SubsequenceSnoc(Select(init, c), init, todos[|todos| - 1]);
      assert init + [todos[|todos| - 1]] == todos;
    }
  }

  /** A todo is in the result exactly when it is one of the todos and meets every criterion. */
  lemma {:induction false} SelectMembers(todos: seq<Todo>, c: Criteria, t: Todo)
    ensures t in Select(todos, c) <==> t in todos && Matches(t.ToDict(), c)
    decreases |todos|
  {
    if todos != [] {
      var init := todos[..|todos| - 1];
      SelectMembers(init, c, t);
      assert todos == init + [todos[|todos| - 1]];
    }
  }

  /** With no criterion given, every todo is kept. */
  lemma {:induction false} SelectNoCriteria(todos: seq<Todo>)
    ensures Select(todos, NoCriteria) == todos
    decreases |todos|
  {
    if todos != [] {
      SelectNoCriteria(todos[..|todos| - 1]);
      assert todos[..|todos| - 1] + [todos[|todos| - 1]] == todos;
    }
  }

  /** An empty list of priorities, projects or contexts, or an empty tag dict, matches no todo. */
  lemma {:induction false} SelectEmptyCriterion(todos: seq<Todo>, c: Criteria)
    requires c.priority == Some([]) || c.projects == Some([]) || c.contexts == Some([]) || c.tags == Some([])
    ensures Select(todos, c) == []
    decreases |todos|
  {
    if todos != [] {
      SelectEmptyCriterion(todos[..|todos| - 1], c);
    }
  }

  /** Searching the result again with the same criteria changes nothing. */
  lemma {:induction false} SelectIdempotent(todos: seq<Todo>, c: Criteria)
    ensures Select(Select(todos, c), c) == Select(todos, c)
    decreases |todos|
  {
    if todos != [] {
      var init := todos[..|todos| - 1];
      var last := todos[|todos| - 1];
      SelectIdempotent(init, c);
      var kept := Select(init, c);
      if Matches(last.ToDict(), c) {
        assert (kept + [last])[..|kept|] == kept;
      }
    }
  }
}
