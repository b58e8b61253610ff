# todotxtio in Dafny

A model of the core of todotxtio, a small Python library that reads and
writes Todo.txt files. A Todo.txt file has one task per line: an optional
`x ` completion mark, optional dates and an `(A)`-style priority, then free
text carrying `+project`, `@context` and `key:value` tokens.

The model covers:

- the `Todo` record and its attribute rules (`__setattr__`);
- decoding a file (`from_string`) through the four regular expressions;
- rendering a todo (`__str__`) and a list of todos (`to_string`);
- the dict conversions (`to_dict`, `to_dicts`, `from_dicts`);
- filtering (`search`).

Modules, one per file:

- `Wrappers` (wrappers.dfy): `Option` and `Result`.
- `Text` (text.dfy):
  - Python's `str.strip`, `str.join` and `str.splitlines` on the ASCII whitespace and line-break characters;
  - the token layout `''.join([' +' + p for p in ...])`.
- `Dicts` (dicts.dfy): a Python `dict[str, str]` as an association list.
  - Keys are unique.
  - Assigning a new key appends it, so insertion order is kept.
  - Assigning an existing key replaces its value in place.
- `Patterns` (patterns.dfy): the four regular expressions of todotxtio.py:19-22 as scanners.
  - `MatchPrefix` is `todo_data_regex.match`.
  - `ScanMarked` gives `findall` and `sub` of the project and context regexes.
  - `ScanTags` gives `findall` and `sub` of the tag regex.
  - Each scanner has lemmas on what it reads back from rendered text.
- `Todos` (todo.dfy):
  - `TodoDict`, the value `to_dict` returns;
  - the invariant `__setattr__` keeps (`Consistent`);
  - class `Todo`, whose methods perform the attribute writes, `__init__` (`Init`) and `__str__` (`Render`);
  - `RenderLine`, the function `Render` is proved against.
- `Codec` (codec.dfy):
  - `ParseLine` specifies the loop body of `from_string`;
  - `ParseTodo`, `SetPrefix`, `SetBody` and `AddTags` perform it on a `Todo` object;
  - `FromString`, `ToDicts`, `FromDicts`, `RenderAll` and `ToString`.
- `RoundTrip` (roundtrip.dfy): when the line `str(todo)` is parsed back into the same todo, and what is lost otherwise.
- `Reading` (reading.dfy): facts about single decoded lines.
  - A lower-case priority is not a priority.
  - Tag values never hold `/`.
- `Search` (search.dfy): `search` as a loop, proved against the filter `Select`.

Python's `None` for an optional string is `None` in `Option<string>`. A
falsy string (`None` or `''`) is what `IsSet` rejects.

### Where the documented behaviour and the code differ

The model follows the code in each case below.

- A completed line with one date (`x 2024-01-02 text`) gets that date as its
  completion date, not its creation date. The first date group of the prefix
  regex takes it (todotxtio.py:82-86). `RoundTrip.MarkThenDate` states what
  a completed todo with only a creation date becomes after writing and reading.
- An open line with a priority and a date after it (`(A) 2024-01-02 text`)
  loses the date. Only group 2 is read as the creation date of an open todo
  (todotxtio.py:87-88). `RoundTrip.LostDate` states it.
- The constructor keeps a completion date only on a completed todo
  (todotxtio.py:192-193).
- A tag value stops at the first `/`, because the tag regex excludes `/`
  from values (todotxtio.py:22). The word `test1:http://google.com/` is
  read as the tag `test1` with the value `http:`, and `//google.com/` stays
  in the text, although the repository's test expects the whole URL as the
  value. `Reading.TagValues` proves that no decoded tag value holds `/`.

## Model

| member | source | states |
|---|---|---|
| Text.Strip | todotxtio.py:72-73 | `s.strip()` leaves no whitespace at either end, is no longer than `s`, and leaves a stripped string unchanged |
| Text.SplitLines | todotxtio.py:72 | `splitlines()` gives no line exactly for the empty string |
| Text.SplitLinesShape | todotxtio.py:72 | a non-empty string without line breaks is one line |
| Text.SplitLinesNoBreak | todotxtio.py:72 | no line `splitlines()` returns holds a line break |
| Text.SplitLinesJoin | todotxtio.py:72 | joining break-free lines with `\n`, the last one non-empty, and splitting again gives the lines back |
| Dicts.Put | todotxtio.py:112 | `tags[k] = v` keeps keys unique, maps `k` to `v`, leaves every other key's value, keeps the positions of existing keys and appends a new key |
| Dicts.PutAll | todotxtio.py:111-112 | assigning a list of pairs in order keeps the keys unique |
| Dicts.PutAllLastWins | todotxtio.py:111-112 | after assigning a list of pairs in order, each key holds the value of its last pair |
| Dicts.PutAllUntouched | todotxtio.py:111-112 | a key no pair names keeps its old value |
| Dicts.PutAllFresh | todotxtio.py:111-112 | pairs with distinct new keys are appended in order |
| Patterns.MatchPrefix | todotxtio.py:19 | the prefix match always succeeds; its dates are `dddd-dd-dd` and its priority one letter `A`-`Z` |
| Patterns.MatchPrefixSplits | todotxtio.py:92 | the matched prefix followed by the remaining text is the whole line, so `sub('', line)` is the remainder |
| Patterns.MatchPrefixGreedy | todotxtio.py:19 | an optional group is absent only when the text at its position cannot start it |
| Patterns.MatchPrefixText | todotxtio.py:19 | a canonical prefix written out is read back as the same groups when the text after it cannot start a group |
| Patterns.TakePriority | todotxtio.py:19 | a priority group is taken exactly when the text starts with `(`, an upper-case letter, `)` and a space |
| Patterns.ScanMarked | todotxtio.py:96-106 | the text left after the matches are cut out is no longer than the input |
| Patterns.ScanMarkedFound | todotxtio.py:20-21 | every project or context found is non-empty and holds no whitespace |
| Patterns.ScanMarkedExhaustive | todotxtio.py:96-106 | after the matches are cut out, no further match remains |
| Patterns.TagMatch | todotxtio.py:22 | a tag match covers at least four characters (space, key, colon, value) and lies within the text |
| Patterns.TagMatchParts | todotxtio.py:22 | a tag match is a space, a non-empty key without whitespace, `:` and a non-empty value without whitespace or `/`, and covers exactly those characters |
| Patterns.KeyEnd | todotxtio.py:22 | where the greedy key stops: a colon with at least one character before it and, after it, a character other than `/` |
| Patterns.KeyEndMax | todotxtio.py:22 | no colon after the one chosen could end the key, so the key runs to the last such colon of the word |
| Patterns.ValueLengthStops | todotxtio.py:22 | the value covers only characters that are neither whitespace nor `/`, and stops only at the end of the text, at whitespace or at `/` |
| Patterns.ScanTags | todotxtio.py:108-114 | every match cuts at least four characters, so the text left plus four per pair found is no longer than the input |
| Patterns.ScanTagsFound | todotxtio.py:22 | every pair found has a non-empty whitespace-free key and a value without whitespace or `/` |
| Patterns.KeyEndFinds | todotxtio.py:22 | the key regex matches a word exactly when the word has a colon that can end a key |
| Patterns.SlashAfterTag | todotxtio.py:22 | when a tag match is followed by a non-whitespace character, the value stopped at `/`, and the word from there holds no colon that can end a key |
| Patterns.ScanTagsExhaustive | todotxtio.py:108-114 | after the tag matches are cut out, no further match remains, although cutting joins text that was apart |
| Patterns.ScanMarkedTail | todotxtio.py:96-106 | the projects (contexts) written after the text are read back left to right, and the other words are left in the text |
| Patterns.ScanTagsTail | todotxtio.py:108-114 | tag pairs written after the text are read back in order, and the text is left |
| Todos.CoerceList | todotxtio.py:226-231 | a falsy value becomes `[]`, a list is kept, and anything else is refused with `ValueError("<name> should be a list")` |
| Todos.CoerceDict | todotxtio.py:232-237 | a falsy value becomes `{}`, a dict is kept, and anything else is refused with `ValueError("tags should be a dict")` |
| Todos.Constructed | todotxtio.py:188-199 | the constructor keeps the completion date exactly when the todo is completed and the date truthy; all other arguments are kept |
| Todos.ConstructedKeeps | todotxtio.py:188-199 | `Todo(**d)` reproduces `d` exactly when `d` has no completion date the constructor drops |
| Todos.Todo.constructor | todotxtio.py:179-186 | a new todo has the class-level defaults and is consistent |
| Todos.Todo.SetCompleted | todotxtio.py:218-220 | setting `completed` falsy clears the completion date; nothing else changes; the invariant holds |
| Todos.Todo.SetCompletionDate | todotxtio.py:221-225 | setting the completion date sets `completed` to its truthiness; nothing else changes |
| Todos.Todo.SetProjects | todotxtio.py:226-231 | stores the coerced list, or returns the `ValueError` and leaves every attribute unchanged |
| Todos.Todo.SetContexts | todotxtio.py:226-231 | as `SetProjects`, for contexts |
| Todos.Todo.SetTags | todotxtio.py:232-237 | stores the coerced dict, or returns the `ValueError` and leaves every attribute unchanged |
| Todos.Todo.Init | todotxtio.py:188-199 | `__init__` on a fresh todo: the first refused list or dict argument is the error; otherwise the attributes are the constructed todo; the invariant holds either way |
| Todos.Todo.SetCollections | todotxtio.py:197-199 | writes `projects`, `contexts`, then `tags` through their setters; the first refused value is the error; otherwise exactly those three attributes take their coerced values |
| Todos.RenderLine | todotxtio.py:241-268 | the line of a completed todo starts with `x ` |
| Todos.Todo.Render | todotxtio.py:241-268 | `str(todo)` builds its parts by appends and equals `RenderLine` of the todo's dict |
| Codec.Lines | todotxtio.py:72 | input that is all whitespace holds no line, and any other input holds at least one |
| Codec.PrefixFields | todotxtio.py:79-90 | `x` makes the todo completed; on a completed line the first date is the completion date and the second the creation date; on an open line the first date is the creation date; the result is consistent |
| Codec.ParseBody | todotxtio.py:96-114 | the text the three token stages leave is stripped |
| Codec.ParseLine | todotxtio.py:72-116 | every decoded todo is consistent: a completion date only on a completed todo, tags with unique keys |
| Codec.ParseLineShape | todotxtio.py:64-120 | every decoded todo is consistent, completed exactly when the stripped line starts with `x `, has well-formed dates and an `A`-`Z` priority, and has stripped text |
| Codec.BlankLine | todotxtio.py:72-116 | a blank line between two others gives a todo with empty text and every other attribute at its default |
| Codec.SetPrefix | todotxtio.py:79-90 | the prefix writes, through the setters, leave a fresh todo with the fields `PrefixFields` gives |
| Codec.AddTags | todotxtio.py:111-112 | assigning the found pairs one by one leaves the tags as `PutAll` of them and changes nothing else |
| Codec.SetBody | todotxtio.py:96-116 | the project, context and tag stages set each attribute only when their regex found something, and leave the text `ParseBody` gives |
| Codec.ParseTodo | todotxtio.py:73-116 | the loop body yields a fresh valid todo whose dict is `ParseLine(line)` |
| Codec.FromString | todotxtio.py:64-120 | one fresh todo per line of `s.strip()`, in order, no two of them the same object, each with the dict `ParseLine` gives |
| Codec.ToDicts | todotxtio.py:123-129 | one dict per todo |
| Codec.ToDictsAt | todotxtio.py:123-129 | entry `i` of `to_dicts` is `todos[i].to_dict()` |
| Codec.FromDicts | todotxtio.py:25-31 | one fresh, distinct, valid todo per dict, each built by the constructor; when every dict is consistent and none has the completion date `''`, `to_dicts` of the result gives the dicts back unchanged |
| Codec.RenderAll | todotxtio.py:164 | one rendered line per todo, in order |
| Codec.ToString | todotxtio.py:158-164 | when no rendered line holds a line break and the last one is not empty, `splitlines()` of the result gives the rendered todos back, one per line, in order; no todos give the empty string |
| RoundTrip.RenderLineShape | todotxtio.py:241-268 | the rendered line is the prefix text, then the text, then the projects, contexts and tags each preceded by a space |
| RoundTrip.ReadRendered | todotxtio.py:64-120 | parsing `str(d)` of a readable todo gives back its text, projects, contexts and tags, and the prefix fields as the regex reads them |
| RoundTrip.PlainLine | todotxtio.py:72-116 | a line of plain text, with no prefix group and no token, gives an open todo with that text and nothing else set |
| RoundTrip.ParseRenderLine | todotxtio.py:64-120 | for a readable todo, parsing `str(d)` gives `d` back exactly when `d` avoids the two lossy prefix layouts |
| RoundTrip.MarkThenDate | todotxtio.py:82-86 | a completed todo with only a creation date comes back with that date as its completion date |
| RoundTrip.LostDate | todotxtio.py:87-90 | an open todo with a priority and a creation date comes back without the creation date |
| RoundTrip.RenderedLine | todotxtio.py:241-268 | the line of a readable todo without line breaks in its text is non-empty, stripped and break-free |
| RoundTrip.ReadAllRendered | todotxtio.py:158-164 | `from_string(to_string(todos))` gives back every todo that reads back, one per line, in order |
| Reading.LowercasePriority | todotxtio.py:19 | a line starting `(a)` has no priority, is open, has no creation date, and keeps `(a)` at the start of its text |
| Reading.ParseBodyLead | todotxtio.py:96-116 | a word without whitespace at the head of the text after the prefix stays at the head of the decoded text |
| Reading.TagValues | todotxtio.py:108-114 | every decoded tag value is non-empty and holds neither whitespace nor `/` |
| Search.Select | todotxtio.py:294-326 | every todo kept is in the input and meets every given criterion |
| Search.ContainsAt | todotxtio.py:300 | `text in todo.text` holds exactly when the text occurs at some position |
| Search.Search | todotxtio.py:275-326 | the loop returns the todos that `Select` keeps, in order |
| Search.SelectSubsequence | todotxtio.py:294-326 | the result is a subsequence of the input: nothing added, nothing reordered |
| Search.SelectMembers | todotxtio.py:296-324 | a todo is in the result exactly when it is in the input and meets every given criterion |
| Search.SelectNoCriteria | todotxtio.py:297-323 | with every criterion `None`, every todo is returned |
| Search.SelectEmptyCriterion | todotxtio.py:308-321 | an empty priority, project or context list, or an empty tag dict, matches no todo |
| Search.SelectIdempotent | todotxtio.py:275-326 | searching the result again with the same criteria returns it unchanged |

## Left out

- `from_stream`, `from_file`, `to_stream`, `to_file` (todotxtio.py:34-61, 132-155) are file and stream I/O. `ToString` and `FromString` are what they pass through.
- `__repr__` (todotxtio.py:270-272) returns `__str__`, which `Todo.Render` models.
- Whitespace and digits: `\s`, `\d`, `str.strip` and `splitlines` are modelled on ASCII only.
  - Whitespace is the space and `\t`..`\r`.
  - Line breaks are `\n`..`\r`, with `\r\n` as one break.
  - The separators `\x1c`..`\x1f` and non-ASCII whitespace or line breaks are not modelled.
  - A digit of a date is `0`..`9` (`Text.IsDigit`); the non-ASCII digits Python's `\d` also takes are not modelled.
- `text` is a string; Python's default `None` is modelled as the empty string. So `str()` of a todo with no text (a `TypeError` in Python) and `search` by text on it are not modelled.
- `completed` is a `bool`. Truthy non-bool values are not modelled.
- Dates and priority are strings, as the regexes produce; the setters do not check them.
- `from_dicts` takes complete dicts. Missing keys fall back to defaults and unknown keys raise `TypeError`; neither is modelled.
- A dict passed to the constructor must have unique keys; a Python dict always does.
- Aliasing of the list and dict attributes is not modelled. In Python the constructor stores the caller's own `projects` and `contexts` lists and `tags` dict (todotxtio.py:197-199), and `to_dict` hands out those live objects (todotxtio.py:212-214), so a later change through one reference shows through the other. The model stores and returns them as values.
- Codec.FromDicts: `from_dicts` raises `ValueError` for a dict whose `projects` or `contexts` is not a list or whose `tags` is not a dict (todotxtio.py:226-237). The typed `TodoDict` input cannot hold such values, so that error path is not reachable in `FromDicts`; `Todos.Todo.Init` models it for its arguments.
- The `else` branch of `from_string` (todotxtio.py:93-94) is not modelled. The prefix regex matches every string, so the branch cannot be taken.
- Search.Matches: the priority criterion is a list of strings. A string criterion, where `in` is substring search, is not modelled.
- Search.Matches: a `None` priority never matches, because a list of strings cannot hold `None`.
- RoundTrip.ParseRenderLine: the round trip is stated for `Readable` todos only. Todos outside `Readable` are not covered, whether or not they read back. They are:
  - the inconsistent ones;
  - those whose text is empty, has whitespace at either end, starts with a prefix group followed by a space or is exactly one (`x`, a date or `(A)`), or holds a project, context or tag token;
  - those whose dates or priority are not in the form the prefix regex reads;
  - those with an empty project or context name, or one holding whitespace;
  - those with an empty tag key, one holding whitespace or one starting with `+` or `@`;
  - those with a tag value that is empty or holds whitespace, `/` or `:`. Some of them still read back, such as a completed todo with both dates and a priority whose text is `x 2020-01-01 a`. `Reading.LowercasePriority` and `Reading.TagValues` describe some of the others.
- Concrete example lines (such as `(a) text` or a URL tag) are covered by the general lemmas above rather than by evaluation on literal strings.
