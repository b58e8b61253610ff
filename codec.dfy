/**
  Reading and writing Todo.txt text (todotxtio.py:25-31, 64-120, 123-129,
  158-164): `from_string` decodes each line through the four regular
  expressions, `to_string` joins the rendered todos, and `from_dicts` and
  `to_dicts` convert between todos and their dicts.
 */
module Codec {
  import opened Wrappers
  import opened Text
  import opened Dicts
  import opened Patterns
  import opened Todos

  /**
    `string.strip().splitlines()`: the lines `from_string` decodes, one todo
    each. Whitespace-only input holds no todo; any other input holds at
    least one.
   */
  function Lines(s: string): (lines: seq<string>)
    ensures lines == [] <==> AllSpace(s)
  {
    StripEmpty(s);
    SplitLines(Strip(s))
  }

  /**
    One extraction stage: when the regex found something, its matches are
    cut out and what is left is stripped; otherwise the text stays as it was.
   */
  function Cut<T>(text: string, scan: Scan<T>): (r: string)
    requires IsStripped(text)
    ensures IsStripped(r)
    ensures scan.found == [] ==> r == text
  {
    if scan.found != [] then Strip(scan.rest) else text
  }

  /** What the three token stages make of the text after the prefix. */
  datatype Body = Body(text: string, projects: seq<string>, contexts: seq<string>, tags: seq<(string, string)>)

  /**
    The project, context and tag stages of `from_string`, in that order,
    each working on the text the previous one left.
   */
  function ParseBody(t0: string): (b: Body)
    requires IsStripped(t0)
    ensures IsStripped(b.text)
  {
    var ps := ScanMarked(t0, '+');
    var t1 := Cut(t0, ps);
    var cs := ScanMarked(t1, '@');
    var t2 := Cut(t1, cs);
    var ts := ScanTags(t2);
    Body(Cut(t2, ts), ps.found, cs.found, ts.found)
  }

  /**
    The completion state, dates and priority the prefix groups give:
    `x` marks the todo completed; on a completed line the first date is the
    completion date and the second the creation date, on any other line
    the first date is the creation date and the second is dropped.
   */
  function PrefixFields(p: Prefix): (d: TodoDict)
    requires WellFormed(p)
    ensures Consistent(d)
    ensures d.completed == p.done && d.priority == p.priority
    ensures d.completionDate == (if p.done then p.date1 else None)
    ensures d.creationDate == (if p.done then p.date2 else p.date1)
    ensures d.(completed := false, completionDate := None, priority := None, creationDate := None) == Blank
  {
    Blank.(completed := p.done, completionDate := if p.done && IsSet(p.date1) then p.date1 else None,
           priority := p.priority, creationDate := if p.done then p.date2 else p.date1)
  }

  /**
    The todo the body of the `from_string` loop builds from one line: the
    prefix fields, then the text after the prefix through the token stages.
   */
  function ParseLine(line: string): (d: TodoDict)
    ensures Consistent(d)
  {
    var m := MatchPrefix(Strip(line));
    var b := ParseBody(Strip(m.1));
    PrefixFields(m.0).(text := b.text, projects := b.projects, contexts := b.contexts, tags := PutAll([], b.tags))
  }

  /**
    Every decoded todo is consistent, completed exactly when the stripped
    line starts with `x `, with well-formed dates and priority and a
    stripped text.
   */
  lemma ParseLineShape(line: string)
    ensures var d := ParseLine(line);
      Consistent(d) &&
      (d.completed <==> MarkAt(Strip(line))) &&
      (d.completionDate.Some? ==> d.completed && IsDate(d.completionDate.value)) &&
      (d.creationDate.Some? ==> IsDate(d.creationDate.value)) &&
      (d.priority.Some? ==> IsPriority(d.priority.value)) &&
      IsStripped(d.text)
  {
  }

  /**
    A blank line between two others (`splitlines` keeps it) gives a todo
    with empty text and every other attribute at its default.
   */
  lemma BlankLine(line: string)
    requires AllSpace(line)
    ensures ParseLine(line) == Blank
  {
    StripEmpty(line);
  }

  /** The prefix part of the `from_string` loop body, on a todo just built by `Todo()`. */
  method SetPrefix(todo: Todo, p: Prefix)
    requires todo.ToDict() == Blank && WellFormed(p)
    modifies todo
    ensures todo.Valid()
    ensures todo.ToDict() == PrefixFields(p)
  {
    todo.SetCompleted(p.done);
    if todo.completed {
      todo.creationDate := p.date2;
      if IsSet(p.date1) {
        todo.SetCompletionDate(p.date1);
      }
    } else {
      todo.creationDate := p.date1;
    }
    todo.priority := p.priority;
  }

  /** `for k, v in pairs: todo.tags[k] = v`: the dict is updated in place, key by key. */
  method AddTags(todo: Todo, pairs: seq<(string, string)>)
    requires todo.Valid()
    modifies todo
    ensures todo.Valid()
    ensures todo.ToDict() == old(todo.ToDict()).(tags := PutAll(old(todo.tags), pairs))
  {
    for i := 0 to |pairs|
      invariant todo.Valid()
      invariant todo.ToDict() == old(todo.ToDict()).(tags := PutAll(old(todo.tags), pairs[..i]))
    {
      TakeSnoc(pairs, i);
      PutAllSnoc(old(todo.tags), pairs[..i], pairs[i].0, pairs[i].1);
      todo.tags := Put(todo.tags, pairs[i].0, pairs[i].1);
    }
    assert pairs[..|pairs|] == pairs;
  }

  /**
    The token stages of the `from_string` loop body on a todo that has no
    projects, contexts or tags yet: each stage sets its attribute and cuts
    its matches from the text only when it found something.
   */
  method SetBody(todo: Todo, t0: string)
    requires todo.Valid() && IsStripped(t0)
    requires todo.projects == [] && todo.contexts == [] && todo.tags == []
    modifies todo
    ensures todo.Valid()
    ensures var b := ParseBody(t0);
      todo.ToDict() == old(todo.ToDict()).(text := b.text, projects := b.projects, contexts := b.contexts,
                                           tags := PutAll([], b.tags))
  {
    var text := t0;
    var projects := ScanMarked(text, '+');
    if |projects.found| > 0 {
      var _ := todo.SetProjects(ListValue(projects.found));
      text := Strip(projects.rest);
    }
    assert text == Cut(t0, projects);
    ghost var t1 := text;

    var contexts := ScanMarked(text, '@');
    if |contexts.found| > 0 {
      var _ := todo.SetContexts(ListValue(contexts.found));
      text := Strip(contexts.rest);
    }
    assert text == Cut(t1, contexts);
    ghost var t2 := text;

    var tags := ScanTags(text);
    if |tags.found| > 0 {
      AddTags(todo, tags.found);
      text := Strip(tags.rest);
    }
    assert text == Cut(t2, tags);

    todo.text := text;
  }

  /** The loop body of `from_string`: a fresh `Todo()` whose attributes are written stage by stage. */
  method ParseTodo(line: string) returns (todo: Todo)
    ensures fresh(todo) && todo.Valid()
    ensures todo.ToDict() == ParseLine(line)
  {
    var pre := MatchPrefix(Strip(line));
    todo := new Todo();
    SetPrefix(todo, pre.0);
    SetBody(todo, Strip(pre.1));
  }

  /** The dicts of the todos decoded from `lines`, one per line, in order. */
  function ParseLines(lines: seq<string>): (ds: seq<TodoDict>)
  {
    seq(|lines|, i requires 0 <= i < |lines| => ParseLine(lines[i]))
  }

  /**
    `from_string(s)`: one fresh todo per line of `s.strip()`, in order, no
    two of them the same object.
    Each is valid, since its dict is consistent (`ParseLine`).
   */
  method FromString(s: string) returns (todos: seq<Todo>)
    ensures ToDicts(todos) == ParseLines(Lines(s))
    ensures forall t :: t in todos ==> fresh(t)
    ensures forall i, j :: 0 <= i < j < |todos| ==> todos[i] != todos[j]
  {
    todos := [];
    var lines := SplitLines(Strip(s));
    ghost var ds := ParseLines(lines);
    for i := 0 to |lines|
      invariant |todos| == i
      invariant forall t :: t in todos ==> fresh(t)
      invariant Distinct(todos)
      invariant ToDicts(todos) == ds[..i]
    {
      var todo := ParseTodo(lines[i]);
      ToDictsExtend(todos, todo, ds, i);
      DistinctSnoc(todos, todo);
      todos := todos + [todo];
    }
    assert ds[..|lines|] == ds;
  }

  /** `to_dicts(todos)`: the dict of every todo, in order. */
  function ToDicts(todos: seq<Todo>): (ds: seq<TodoDict>)
    reads set t | t in todos
    ensures |ds| == |todos|
  {
    if todos == [] then [] else [todos[0].ToDict()] + ToDicts(todos[1..])
  }

  /** Entry `i` of `to_dicts(todos)` is the dict of `todos[i]`. */
  lemma {:induction false} ToDictsAt(todos: seq<Todo>, i: nat)
    requires i < |todos|
    ensures ToDicts(todos)[i] == todos[i].ToDict()
    decreases i
  {
    if i > 0 {
      ToDictsAt(todos[1..], i - 1);
    }
  }

  /** One more todo whose dict is the next expected one. */
  lemma ToDictsExtend(todos: seq<Todo>, t: Todo, ds: seq<TodoDict>, i: nat)
    requires i < |ds| && ToDicts(todos) == ds[..i] && t.ToDict() == ds[i]
    ensures ToDicts(todos + [t]) == ds[..i + 1]
  {
    ToDictsSnoc(todos, t);
    TakeSnoc(ds, i);
  }

  lemma {:induction false} ToDictsSnoc(todos: seq<Todo>, t: Todo)
    ensures ToDicts(todos + [t]) == ToDicts(todos) + [t.ToDict()]
    decreases |todos|
  {
    if todos != [] {
      assert (todos + [t])[1..] == todos[1..] + [t];
      ToDictsSnoc(todos[1..], t);
    }
  }

  /**
    `from_dicts(dicts)`: `Todo(**d)` for every dict, in order. Every dict
    `to_dict` can produce comes back unchanged.
   */
  method FromDicts(dicts: seq<TodoDict>) returns (todos: seq<Todo>)
    requires forall i :: 0 <= i < |dicts| ==> UniqueKeys(dicts[i].tags)
    ensures |todos| == |dicts|
    ensures forall i :: 0 <= i < |todos| ==> fresh(todos[i]) && todos[i].Valid()
    ensures forall i, j :: 0 <= i < j < |todos| ==> todos[i] != todos[j]
    ensures forall i :: 0 <= i < |todos| ==> todos[i].ToDict() == Constructed(dicts[i])
    ensures (forall i :: 0 <= i < |dicts| ==> Consistent(dicts[i]) && dicts[i].completionDate != Some([])) ==>
      ToDicts(todos) == dicts
  {
    todos := [];
    for i := 0 to |dicts|
      invariant |todos| == i
      invariant forall k :: 0 <= k < i ==>
        fresh(todos[k]) && todos[k].Valid() && todos[k].ToDict() == Constructed(dicts[k])
      invariant forall k, l :: 0 <= k < l < i ==> todos[k] != todos[l]
    {
      var d := dicts[i];
      var todo := new Todo();
      var _ := todo.Init(d.text, d.completed, d.completionDate, d.priority, d.creationDate,
                         ListValue(d.projects), ListValue(d.contexts), DictValue(d.tags));
      todos := todos + [todo];
    }
    if forall i :: 0 <= i < |dicts| ==> Consistent(dicts[i]) && dicts[i].completionDate != Some([]) {
      forall i | 0 <= i < |dicts| ensures ToDicts(todos)[i] == dicts[i] {
        ToDictsAt(todos, i);
        ConsistentConstructed(dicts[i]);
      }
    }
  }

  /** The line `str(todo)` gives for every dict, in order. */
  function RenderAll(ds: seq<TodoDict>): (lines: seq<string>)
    ensures |lines| == |ds|
    ensures forall i :: 0 <= i < |ds| ==> lines[i] == RenderLine(ds[i])
  {
    if ds == [] then [] else [RenderLine(ds[0])] + RenderAll(ds[1..])
  }

  /**
    `to_string(todos)`: the rendered todos joined with line feeds. When no
    rendered line holds a line break and the last one is not empty, the
    lines of the result are the rendered todos, one per line, in order.
   */
  function ToString(todos: seq<Todo>): (s: string)
    reads set t | t in todos
    ensures todos == [] ==> s == []
    ensures Rejoinable(RenderAll(ToDicts(todos))) ==> SplitLines(s) == RenderAll(ToDicts(todos))
  {
    var lines := RenderAll(ToDicts(todos));
    assert Rejoinable(lines) ==> SplitLines(Join("\n", lines)) == lines by {
      if Rejoinable(lines) {
        SplitLinesJoin(lines);
      }
    }
    Join("\n", lines)
  }
}
