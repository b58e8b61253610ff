/**
  The `Todo` record of todotxtio (todotxtio.py:167-268): eight attributes,
  every write to them routed through `__setattr__`, which keeps the
  completion state consistent and coerces the list and dict attributes;
  `to_dict`, and `__str__`, which renders one Todo.txt line.
 */
module Todos {
  import opened Wrappers
  import opened Text
  import opened Dicts
  import opened Patterns

  /** The dict `to_dict` returns: the eight attributes of a todo, by value. */
  datatype TodoDict = TodoDict(
    text: string,
    completed: bool,
    completionDate: Option<string>,
    priority: Option<string>,
    creationDate: Option<string>,
    projects: seq<string>,
    contexts: seq<string>,
    tags: Dict)

  /** Python truthiness of an optional string: `None` and `''` are falsy. */
  predicate IsSet(o: Option<string>)
  {
    o.Some? && o.value != []
  }

  /**
    What `__setattr__` guarantees of every todo: a truthy completion date
    only on a completed todo, and tags that form a dict.
   */
  predicate Consistent(d: TodoDict)
  {
    (IsSet(d.completionDate) ==> d.completed) && UniqueKeys(d.tags)
  }

  /**
    A Python value assigned to `projects`, `contexts` or `tags`: a list of
    strings, a dict, or a value of any other type, of which only its
    truthiness matters here.
   */
  datatype Value = ListValue(list: seq<string>) | DictValue(dict: Dict) | OtherValue(truthy: bool)

  /** Python truthiness: an empty list or dict is falsy. */
  predicate Truthy(v: Value)
  {
    match v
    case ListValue(list) => list != []
    case DictValue(dict) => dict != []
    case OtherValue(truthy) => truthy
  }

  /** The attributes of a todo that has just been allocated: the class-level defaults. */
  const Blank := TodoDict([], false, None, None, None, [], [], [])

  /** The exception `__setattr__` raises. */
  datatype ValueError = ValueError(message: string)

  /**
    What `__setattr__` stores for `projects` or `contexts`: a falsy value
    becomes the empty list, a list is kept, and anything else is refused.
   */
  function CoerceList(name: string, value: Value): (r: Result<seq<string>, ValueError>)
    ensures r.Failure? <==> Truthy(value) && !value.ListValue?
    ensures r.Failure? ==> r.error == ValueError(name + " should be a list")
    ensures r.Success? ==> r.value == if value.ListValue? then value.list else []
  {
    if !Truthy(value) then Success([])
    else if !value.ListValue? then Failure(ValueError(name + " should be a list"))
    else Success(value.list)
  }

  /**
    What `__setattr__` stores for `tags`: a falsy value becomes the empty
    dict, a dict is kept, and anything else is refused.
   */
  function CoerceDict(value: Value): (r: Result<Dict, ValueError>)
    ensures r.Failure? <==> Truthy(value) && !value.DictValue?
    ensures r.Failure? ==> r.error == ValueError("tags should be a dict")
    ensures r.Success? ==> r.value == if value.DictValue? then value.dict else []
  {
    if !Truthy(value) then Success([])
    else if !value.DictValue? then Failure(ValueError("tags should be a dict"))
    else Success(value.dict)
  }

  /** A dict's keys are distinct. */
  predicate WellTyped(v: Value)
  {
    v.DictValue? ==> UniqueKeys(v.dict)
  }

  /**
    The todo that `Todo(text, completed, completion_date, priority,
    creation_date, projects, contexts, tags)` builds when no argument is
    refused: the completion date is kept only on a completed todo.
   */
  function Constructed(args: TodoDict): (d: TodoDict)
    ensures UniqueKeys(args.tags) ==> Consistent(d)
    ensures d.completed == args.completed
    ensures d.completionDate.Some? <==> args.completed && IsSet(args.completionDate)
    ensures d.completionDate.Some? ==> d.completionDate == args.completionDate
    ensures d.(completionDate := args.completionDate) == args
  {
    args.(completionDate := if args.completed && IsSet(args.completionDate) then args.completionDate else None)
  }

  /**
    `Todo(**d)` gives back `d` exactly when `d` does not carry a completion
    date that the constructor drops.
   */
  lemma ConstructedKeeps(d: TodoDict)
    ensures Constructed(d) == d <==> (d.completionDate.Some? ==> d.completed && IsSet(d.completionDate))
  {
    if Constructed(d) == d && d.completionDate.Some? {
      assert Constructed(d).completionDate.Some?;
    }
  }

  /** Every dict `to_dict` can return is one the constructor reproduces. */
  lemma ConsistentConstructed(d: TodoDict)
    requires Consistent(d)
    requires d.completionDate != Some([])
    ensures Constructed(d) == d
  {
    ConstructedKeeps(d);
  }

  /** `[value]` when the optional string is truthy, `[]` otherwise. */
  function Part(o: Option<string>): seq<string>
  {
    if IsSet(o) then [o.value] else []
  }

  /** The `(P)` part: `['(' + priority + ')']` when the priority is truthy. */
  function PriorityPart(o: Option<string>): seq<string>
  {
    if IsSet(o) then ["(" + o.value + ")"] else []
  }

  /** The parts before the text: `x`, the completion date, `(P)`, the creation date. */
  function PrefixParts(d: TodoDict): seq<string>
  {
    (if d.completed then ["x"] else []) + Part(d.completionDate) + PriorityPart(d.priority) + Part(d.creationDate)
  }

  /**
    The list `ret` that `__str__` builds by appends: the prefix parts, the
    text, then the projects, the contexts and the tags, each part left out
    when its attribute is falsy, except the text.
   */
  function RenderParts(d: TodoDict): seq<string>
  {
    var r5 := PrefixParts(d) + [d.text];
    var r6 := if d.projects != [] then r5 + [Strip(Spaced(MarkedWords('+', d.projects)))] else r5;
    var r7 := if d.contexts != [] then r6 + [Strip(Spaced(MarkedWords('@', d.contexts)))] else r6;
    if d.tags != [] then r7 + [Strip(Spaced(PairWords(d.tags)))] else r7
  }

  /** `str(todo)`: the parts joined with single spaces. The line of a completed todo starts with `x `. */
  function RenderLine(d: TodoDict): (line: string)
    ensures d.completed ==> "x " <= line
  {
    var parts := RenderParts(d);
    assert d.completed ==> parts[0] == "x" && |parts| >= 2;
    Join(" ", parts)
  }

  class Todo {
    var text: string
    var completed: bool
    var completionDate: Option<string>
    var priority: Option<string>
    var creationDate: Option<string>
    var projects: seq<string>
    var contexts: seq<string>
    var tags: Dict

    /** The invariant `__setattr__` maintains: the todo's dict is consistent. */
    predicate Valid()
      reads this
    {
      Consistent(ToDict())
    }

    /** `to_dict()`: the eight attributes. */
    function ToDict(): TodoDict
      reads this
    {
      TodoDict(text, completed, completionDate, priority, creationDate, projects, contexts, tags)
    }

    /**
      A todo with the class-level defaults: no text, not completed, no
      dates, no priority, no projects, contexts or tags. This is also what
      `Todo()` without arguments leaves.
     */
    constructor()
      ensures Valid()
      ensures ToDict() == Blank
    {
      text := [];
      completed := false;
      completionDate := None;
      priority := None;
      creationDate := None;
      projects := [];
      contexts := [];
      tags := [];
    }

    /** `self.completed = value`: a falsy value also clears the completion date. */
    method SetCompleted(value: bool)
      requires Valid()
      modifies this
      ensures Valid()
      ensures ToDict() == old(ToDict()).(completed := value,
                                         completionDate := if value then old(completionDate) else None)
    {
      if !value {
        completionDate := None;
      }
      completed := value;
    }

    /** `self.completion_date = value`: `completed` follows the truthiness of the date. */
    method SetCompletionDate(value: Option<string>)
      requires Valid()
      modifies this
      ensures Valid()
      ensures ToDict() == old(ToDict()).(completed := IsSet(value), completionDate := value)
    {
      completed := IsSet(value);
      completionDate := value;
    }

    /** `self.projects = value`; on a refused value nothing changes. */
    method SetProjects(value: Value) returns (err: Option<ValueError>)
      requires Valid()
      modifies this
      ensures Valid()
      ensures var c := CoerceList("projects", value);
        if c.Failure? then err == Some(c.error) && ToDict() == old(ToDict())
        else err == None && ToDict() == old(ToDict()).(projects := c.value)
    {
      var c := CoerceList("projects", value);
      if c.Failure? {
        return Some(c.error);
      }
      projects := c.value;
      err := None;
    }

    /** `self.contexts = value`; on a refused value nothing changes. */
    method SetContexts(value: Value) returns (err: Option<ValueError>)
      requires Valid()
      modifies this
      ensures Valid()
      ensures var c := CoerceList("contexts", value);
        if c.Failure? then err == Some(c.error) && ToDict() == old(ToDict())
        else err == None && ToDict() == old(ToDict()).(contexts := c.value)
    {
      var c := CoerceList("contexts", value);
      if c.Failure? {
        return Some(c.error);
      }
      contexts := c.value;
      err := None;
    }

    /** `self.tags = value`; on a refused value nothing changes. */
    method SetTags(value: Value) returns (err: Option<ValueError>)
      requires Valid()
      requires WellTyped(value)
      modifies this
      ensures Valid()
      ensures var c := CoerceDict(value);
        if c.Failure? then err == Some(c.error) && ToDict() == old(ToDict())
        else err == None && ToDict() == old(ToDict()).(tags := c.value)
    {
      var c := CoerceDict(value);
      if c.Failure? {
        return Some(c.error);
      }
      tags := c.value;
      err := None;
    }

    /**
      `__init__`, run on a todo just allocated: the attributes are written
      in the source's order, each through its setter. The first refused
      argument among `projects`, `contexts` and `tags` ends it with that
      error, the attributes written before it keeping their new values.
     */
    method Init(text0: string, completed0: bool, completionDate0: Option<string>, priority0: Option<string>,
                creationDate0: Option<string>, projects0: Value, contexts0: Value, tags0: Value)
      returns (err: Option<ValueError>)
      requires ToDict() == Blank
      requires WellTyped(tags0)
      modifies this
      ensures Valid()
      ensures var p := CoerceList("projects", projects0);
        var c := CoerceList("contexts", contexts0);
        var t := CoerceDict(tags0);
        if p.Failure? then err == Some(p.error)
        else if c.Failure? then err == Some(c.error)
        else if t.Failure? then err == Some(t.error)
        else
          err == None &&
          ToDict() == Constructed(TodoDict(text0, completed0, completionDate0, priority0, creationDate0,
                                           p.value, c.value, t.value))
    {
      text := text0;
      SetCompleted(completed0);
      if IsSet(completionDate0) && completed {
        SetCompletionDate(completionDate0);
      }
      priority := priority0;
      creationDate := creationDate0;
      err := SetCollections(projects0, contexts0, tags0);
    }

    /**
      The last three writes of `__init__`: `projects`, `contexts`, then
      `tags`, stopping at the first refused value.
     */
    method SetCollections(projects0: Value, contexts0: Value, tags0: Value) returns (err: Option<ValueError>)
      requires Valid() && WellTyped(tags0)
      modifies this
      ensures Valid()
      ensures var p := CoerceList("projects", projects0);
        var c := CoerceList("contexts", contexts0);
        var t := CoerceDict(tags0);
        if p.Failure? then err == Some(p.error)
        else if c.Failure? then err == Some(c.error)
        else if t.Failure? then err == Some(t.error)
        else err == None && ToDict() == old(ToDict()).(projects := p.value, contexts := c.value, tags := t.value)
    {
      err := SetProjects(projects0);
      if err.None? {
        err := SetContexts(contexts0);
        if err.None? {
          err := SetTags(tags0);
        }
      }
    }

    /** `__str__`: builds the list of parts by appends and joins it with spaces. */
    method Render() returns (line: string)
      ensures line == RenderLine(ToDict())
    {
      ghost var d := ToDict();
      var ret: seq<string> := [];
      if completed {
        ret := ret + ["x"];
      }
      ghost var r1 := ret;
      if IsSet(completionDate) {
        ret := ret + [completionDate.value];
      }
      ghost var r2 := ret;
      assert r2 == r1 + Part(completionDate);
      if IsSet(priority) {
        ret := ret + ["(" + priority.value + ")"];
      }
      ghost var r3 := ret;
      assert r3 == r2 + PriorityPart(priority);
      if IsSet(creationDate) {
        ret := ret + [creationDate.value];
      }
      assert ret == r3 + Part(creationDate);
      assert ret == PrefixParts(d);
      ret := ret + [text];
      ghost var r5 := ret;
      if projects != [] {
        ret := ret + [Strip(Spaced(MarkedWords('+', projects)))];
      }
      ghost var r6 := ret;
      assert r6 == if projects != [] then r5 + [Strip(Spaced(MarkedWords('+', projects)))] else r5;
      if contexts != [] {
        ret := ret + [Strip(Spaced(MarkedWords('@', contexts)))];
      }
      ghost var r7 := ret;
      assert r7 == if contexts != [] then r6 + [Strip(Spaced(MarkedWords('@', contexts)))] else r6;
      if tags != [] {
        ret := ret + [Strip(Spaced(PairWords(tags)))];
      }
      assert ret == RenderParts(d);
      line := Join(" ", ret);
    }
  }
}
