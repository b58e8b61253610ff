/**
  Writing a todo with `str` and reading the line back with `from_string`
  (todotxtio.py:64-120, 241-268). The line `__str__` writes is the prefix
  the prefix regex reads, the text, then the project, context and tag
  tokens; under the conditions of `ReadsBack` the parse gives the todo back
  unchanged. Two layouts are lossy, and `MarkThenDate` and `LostDate` say
  exactly what they lose.
 */
module RoundTrip {
  import opened Wrappers
  import opened Text
  import opened Dicts
  import opened Patterns
  import opened Todos
  import opened Codec

  /** Dates and priority in the formats the prefix regex reads. */
  predicate WellFormedDict(d: TodoDict)
  {
    (d.completionDate.Some? ==> IsDate(d.completionDate.value)) &&
    (d.creationDate.Some? ==> IsDate(d.creationDate.value)) &&
    (d.priority.Some? ==> IsPriority(d.priority.value))
  }

  /** Tokens the three regexes read back whole, each in its own stage only. */
  predicate PlainTokens(d: TodoDict)
  {
    (forall i :: 0 <= i < |d.projects| ==> PlainName(d.projects[i])) &&
    (forall i :: 0 <= i < |d.contexts| ==> PlainName(d.contexts[i])) &&
    (forall i :: 0 <= i < |d.tags| ==> PlainTag(d.tags[i]) && d.tags[i].0[0] != '+' && d.tags[i].0[0] != '@')
  }

  /** A text that survives the parse: non-empty, stripped, not read as a prefix group, holding no token. */
  predicate PlainText(t: string)
  {
    t != [] && IsStripped(t) && !FieldAt(t + " ") && NoMarked(t, '+') && NoMarked(t, '@') && NoTags(t)
  }

  /** The todos whose line `from_string` reads back, apart from the prefix quirks. */
  predicate Readable(d: TodoDict)
  {
    Consistent(d) && WellFormedDict(d) && PlainText(d.text) && PlainTokens(d)
  }

  /**
    The readable todos whose line reads back unchanged. Two layouts are
    excluded: a completed todo whose only date is its creation date
    (`MarkThenDate`), and an open todo with both a priority and a creation
    date (`LostDate`).
   */
  predicate ReadsBack(d: TodoDict)
  {
    Readable(d) &&
    !(d.completed && d.completionDate.None? && d.priority.None? && d.creationDate.Some?) &&
    !(!d.completed && d.priority.Some? && d.creationDate.Some?)
  }

  /**
    The prefix groups of the line `__str__` writes, as the prefix regex
    matches them: the first date group takes the first date written, so a
    lone creation date after `x` or on an open todo without priority lands
    in the first group.
   */
  function PrefixOf(d: TodoDict): Prefix
  {
    if d.completed then
      if d.completionDate.None? && d.priority.None? then Prefix(true, d.creationDate, None, None)
      else Prefix(true, d.completionDate, d.priority, d.creationDate)
    else if d.priority.Some? then Prefix(false, None, d.priority, d.creationDate)
    else Prefix(false, d.creationDate, None, None)
  }

  /** The todo `from_string` makes of the line `str(d)`: the prefix fields as read, the rest of `d` unchanged. */
  function Reread(d: TodoDict): TodoDict
    requires WellFormed(PrefixOf(d))
  {
    PrefixFields(PrefixOf(d)).(text := d.text, projects := d.projects, contexts := d.contexts, tags := d.tags)
  }

  /** The tokens `__str__` writes after the text, each with a space before it. */
  function TokenText(d: TodoDict): string
  {
    Spaced(MarkedWords('+', d.projects)) + Spaced(MarkedWords('@', d.contexts)) + Spaced(PairWords(d.tags))
  }

  /** A present, non-empty date part is the date and its space. */
  lemma TrailedPart(o: Option<string>)
    requires o.Some? ==> o.value != []
    ensures Trailed(Part(o)) == DateText(o)
  {
    if o.Some? {
      assert Trailed(Part(o)) == o.value + " " + Trailed([]);
    }
  }

  /** A present, non-empty priority part is `(P)` and its space. */
  lemma TrailedPriorityPart(o: Option<string>)
    requires o.Some? ==> o.value != []
    ensures Trailed(PriorityPart(o)) == PriorityText(o)
  {
    if o.Some? {
      assert Trailed(PriorityPart(o)) == "(" + o.value + ")" + " " + Trailed([]);
    }
  }

  /** The parts before the text, each followed by its space, are the prefix the regex reads. */
  lemma PrefixPartsText(d: TodoDict)
    requires Consistent(d) && WellFormedDict(d)
    ensures Trailed(PrefixParts(d)) == PrefixText(PrefixOf(d))
  {
    var m: seq<string> := if d.completed then ["x"] else [];
    var c := Part(d.completionDate);
    var p := PriorityPart(d.priority);
    var k := Part(d.creationDate);
    assert Trailed(m + c + p + k) == MarkText(d.completed) + DateText(d.completionDate)
      + PriorityText(d.priority) + DateText(d.creationDate) by {
      TrailedAppend(m + c + p, k);
      TrailedAppend(m + c, p);
      TrailedAppend(m, c);
      assert Trailed(m) == MarkText(d.completed) by {
        if d.completed {
          assert Trailed(m) == "x" + " " + Trailed([]);
        }
      }
      TrailedPart(d.completionDate);
      TrailedPriorityPart(d.priority);
      TrailedPart(d.creationDate);
    }
  }

  /** Appending the stripped, space-joined tokens, when there are any, adds them, each after a space. */
  lemma JoinTokens(parts: seq<string>, words: seq<string>)
    requires parts != [] && Solid(words)
    ensures Join(" ", if words != [] then parts + [Strip(Spaced(words))] else parts) == Join(" ", parts) + Spaced(words)
  {
    if words != [] {
      JoinSnoc(parts, Strip(Spaced(words)));
      StripSpaced(words);
    }
  }

  /** `str(todo)`: the prefix groups, the text, then the tokens. */
  lemma RenderLineShape(d: TodoDict)
    requires Consistent(d) && WellFormedDict(d) && PlainTokens(d)
    ensures RenderLine(d) == PrefixText(PrefixOf(d)) + (d.text + TokenText(d))
  {
    var P := MarkedWords('+', d.projects);
    var C := MarkedWords('@', d.contexts);
    var T := PairWords(d.tags);
    var r5 := PrefixParts(d) + [d.text];
    var r6 := if P != [] then r5 + [Strip(Spaced(P))] else r5;
    var r7 := if C != [] then r6 + [Strip(Spaced(C))] else r6;
    var r8 := if T != [] then r7 + [Strip(Spaced(T))] else r7;
    assert RenderParts(d) == r8 by {
      assert |P| == |d.projects| && |C| == |d.contexts| && |T| == |d.tags|;
    }
    assert Join(" ", r5) == PrefixText(PrefixOf(d)) + d.text by {
      JoinTrailed(PrefixParts(d), d.text);
      PrefixPartsText(d);
    }
    MarkedWordsSolid('+', d.projects);
    MarkedWordsSolid('@', d.contexts);
    PairWordsSolid(d.tags);
    JoinTokens(r5, P);
    JoinTokens(r6, C);
    JoinTokens(r7, T);
    var A := PrefixText(PrefixOf(d)) + d.text;
    ConcatAssoc(A + Spaced(P), Spaced(C), Spaced(T));
    ConcatAssoc(A, Spaced(P), Spaced(C) + Spaced(T));
    ConcatAssoc(Spaced(P), Spaced(C), Spaced(T));
    ConcatAssoc(PrefixText(PrefixOf(d)), d.text, TokenText(d));
  }

  /** The text and its tokens form stripped, non-empty text. */
  lemma RestStripped(d: TodoDict)
    requires PlainText(d.text) && PlainTokens(d)
    ensures IsStripped(d.text + TokenText(d)) && d.text + TokenText(d) != []
    ensures TokenText(d) == [] || TokenText(d)[0] == ' '
  {
    var P := MarkedWords('+', d.projects);
    var C := MarkedWords('@', d.contexts);
    var T := PairWords(d.tags);
    MarkedWordsSolid('+', d.projects);
    MarkedWordsSolid('@', d.contexts);
    PairWordsSolid(d.tags);
    SpacedAppend(P, C);
    SpacedAppend(P + C, T);
    assert Solid(P + C + T) by {
      forall i | 0 <= i < |P + C + T| ensures (P + C + T)[i] != [] && HasNoSpace((P + C + T)[i]) {
        if i < |P| {
          assert (P + C + T)[i] == P[i];
        } else if i < |P| + |C| {
          assert (P + C + T)[i] == C[i - |P|];
        } else {
          assert (P + C + T)[i] == T[i - |P| - |C|];
        }
      }
    }
    SpacedShape(P + C + T);
    StrippedThen(d.text, TokenText(d));
  }

  /** A text that does not start a prefix group does not start one with tokens after it. */
  lemma NoFieldBefore(t: string, tail: string)
    requires t != [] && !FieldAt(t + " ")
    requires tail == [] || tail[0] == ' '
    ensures !FieldAt(t + tail)
  {
    if tail == [] {
      assert t + tail == t;
    }
  }

  /** The project or context stage reads back the marked names and leaves the text and the later tokens. */
  lemma MarkedStage(text: string, names: seq<string>, others: seq<string>, mark: char)
    requires text != [] && IsStripped(text)
    requires !IsSpace(mark) && NoMarked(text, mark)
    requires forall i :: 0 <= i < |names| ==> PlainName(names[i])
    requires Solid(others) && forall i :: 0 <= i < |others| ==> others[i][0] != mark
    requires IsStripped(text + Spaced(MarkedWords(mark, names)) + Spaced(others))
    ensures ScanMarked(text + Spaced(MarkedWords(mark, names)) + Spaced(others), mark).found == names
    ensures Cut(text + Spaced(MarkedWords(mark, names)) + Spaced(others),
                ScanMarked(text + Spaced(MarkedWords(mark, names)) + Spaced(others), mark)) == text + Spaced(others)
  {
    var t := text + Spaced(MarkedWords(mark, names)) + Spaced(others);
    var rest := text + Spaced(others);
    assert ScanMarked(t, mark) == Scan(names, rest) by {
      ScanMarkedTail(text, names, others, mark);
    }
    if names == [] {
      var W := Spaced(MarkedWords(mark, names));
      assert W == [] by {
        assert MarkedWords(mark, names) == [];
      }
      assert text + W == text;
    } else {
      assert IsStripped(rest) by {
        SpacedShape(others);
        StrippedThen(text, Spaced(others));
      }
      assert Strip(rest) == rest;
    }
  }

  /** The tag stage reads back the tags and leaves the text. */
  lemma TagStage(text: string, tags: seq<(string, string)>)
    requires IsStripped(text) && NoTags(text)
    requires forall i :: 0 <= i < |tags| ==> PlainTag(tags[i])
    requires IsStripped(text + Spaced(PairWords(tags)))
    ensures ScanTags(text + Spaced(PairWords(tags))).found == tags
    ensures Cut(text + Spaced(PairWords(tags)), ScanTags(text + Spaced(PairWords(tags)))) == text
  {
    ScanTagsTail(text, tags);
  }

  /**
    Regrouping the text and three token runs. Proved apart from
    `ParseBodyTokens`, where the same equations asserted in place run out of
    resource.
   */
  lemma Regroup(a: string, b: string, c: string, e: string)
    ensures a + (b + c + e) == a + b + (c + e)
    ensures a + (c + e) == a + c + e
  {
  }

  /**
    `ParseBody` from the results of its three stages. Proved apart from
    `ParseBodyTokens`, which would otherwise unfold `ParseBody` among all of
    its stage facts and run out of resource.
   */
  lemma ParseBodyStages(t0: string, t1: string, t2: string, b: Body)
    requires IsStripped(t0)
    requires ScanMarked(t0, '+').found == b.projects && Cut(t0, ScanMarked(t0, '+')) == t1
    requires ScanMarked(t1, '@').found == b.contexts && Cut(t1, ScanMarked(t1, '@')) == t2
    requires ScanTags(t2).found == b.tags && Cut(t2, ScanTags(t2)) == b.text
    ensures ParseBody(t0) == b
  {
  }

  /** The three token stages read back the tokens and leave the text. */
  lemma ParseBodyTokens(d: TodoDict)
    requires PlainText(d.text) && PlainTokens(d)
    ensures IsStripped(d.text + TokenText(d)) &&
      ParseBody(d.text + TokenText(d)) == Body(d.text, d.projects, d.contexts, d.tags)
  {
    RestStripped(d);
    var text := d.text;
    var C := MarkedWords('@', d.contexts);
    var T := PairWords(d.tags);
    var t0 := text + TokenText(d);
    var t1 := text + Spaced(C) + Spaced(T);
    var t2 := text + Spaced(T);
    assert ScanMarked(t0, '+').found == d.projects && Cut(t0, ScanMarked(t0, '+')) == t1 by {
      var others := C + T;
      MarkedWordsSolid('@', d.contexts);
      PairWordsSolid(d.tags);
      assert Solid(others) && forall i :: 0 <= i < |others| ==> others[i][0] != '+' by {
        forall i | 0 <= i < |others| ensures others[i] != [] && HasNoSpace(others[i]) && others[i][0] != '+' {
          if i < |C| {
            assert others[i] == C[i];
          } else {
            assert others[i] == T[i - |C|];
          }
        }
      }
      SpacedAppend(C, T);
      Regroup(text, Spaced(MarkedWords('+', d.projects)), Spaced(C), Spaced(T));
      MarkedStage(text, d.projects, others, '+');
    }
    assert ScanMarked(t1, '@').found == d.contexts && Cut(t1, ScanMarked(t1, '@')) == t2 by {
      PairWordsSolid(d.tags);
      MarkedStage(text, d.contexts, T, '@');
    }
    assert ScanTags(t2).found == d.tags && Cut(t2, ScanTags(t2)) == text by {
      TagStage(text, d.tags);
    }
    ParseBodyStages(t0, t1, t2, Body(text, d.projects, d.contexts, d.tags));
  }

  /** A prefix match starts with `x`, a digit or `(`, never with whitespace. */
  lemma PrefixTextStart(q: Prefix)
    requires WellFormed(q)
    ensures PrefixText(q) == [] || !IsSpace(PrefixText(q)[0])
  {
  }

  /** Text stripped at its end stays stripped after a prefix that does not start with whitespace. */
  lemma StrippedAfter(p: string, rest: string)
    requires IsStripped(rest) && rest != []
    requires p == [] || !IsSpace(p[0])
    ensures IsStripped(p + rest)
  {
    if p == [] {
      assert p + rest == rest;
    } else {
      assert (p + rest)[0] == p[0];
      assert (p + rest)[|p + rest| - 1] == rest[|rest| - 1];
    }
  }

  /**
    The prefix the regex reads from `str(d)` is well formed and canonical,
    and it gives back the prefix fields of `d` unless `d` has one of the two
    lossy layouts.
   */
  lemma PrefixOfFields(d: TodoDict)
    requires Consistent(d) && WellFormedDict(d)
    ensures WellFormed(PrefixOf(d)) && Canonical(PrefixOf(d))
    ensures Reread(d) == d <==>
      !(d.completed && d.completionDate.None? && d.priority.None? && d.creationDate.Some?) &&
      !(!d.completed && d.priority.Some? && d.creationDate.Some?)
  {
  }

  /** `from_string(str(d))` for every readable todo: `d` with its prefix fields as the regex reads them back. */
  lemma ReadRendered(d: TodoDict)
    requires Readable(d)
    ensures WellFormed(PrefixOf(d)) && ParseLine(RenderLine(d)) == Reread(d)
  {
    var q := PrefixOf(d);
    var rest := d.text + TokenText(d);
    RenderLineShape(d);
    RestStripped(d);
    NoFieldBefore(d.text, TokenText(d));
    PrefixOfFields(d);
    PrefixTextStart(q);
    ParseBodyTokens(d);
    PutAllFresh([], d.tags);
    assert [] + d.tags == d.tags;
    ParseLineFrom(RenderLine(d), q, rest, Body(d.text, d.projects, d.contexts, d.tags));
  }

  /** `ParseLine` on a line made of a canonical prefix and stripped text after it. */
  lemma ParseLineFrom(line: string, q: Prefix, rest: string, b: Body)
    requires line == PrefixText(q) + rest
    requires WellFormed(q) && Canonical(q) && (PrefixText(q) == [] || !IsSpace(PrefixText(q)[0]))
    requires IsStripped(rest) && rest != [] && !FieldAt(rest) && ParseBody(rest) == b
    ensures ParseLine(line) == PrefixFields(q).(text := b.text, projects := b.projects, contexts := b.contexts,
                                                 tags := PutAll([], b.tags))
  {
    StrippedAfter(PrefixText(q), rest);
    MatchPrefixText(q, rest);
  }

  /**
    A line that is plain text, with no prefix group and no token, gives an
    open todo with that text and nothing else set.
   */
  lemma PlainLine(t: string)
    requires PlainText(t)
    ensures ParseLine(t) == Blank.(text := t)
  {
    var q := Prefix(false, None, None, None);
    NoFieldBefore(t, []);
    assert t + [] == t;
    ScanMarkedNone(t, '+');
    ScanMarkedNone(t, '@');
    ScanTagsNone(t);
    ParseLineFrom(t, q, t, Body(t, [], [], []));
  }

  /**
    The round trip: reading back the line `str(todo)` writes gives the
    todo's dict unchanged exactly when the todo avoids the two lossy layouts.
   */
  lemma ParseRenderLine(d: TodoDict)
    requires Readable(d)
    ensures ParseLine(RenderLine(d)) == d <==> ReadsBack(d)
  {
    ReadRendered(d);
    PrefixOfFields(d);
  }

  /**
    `x D text` with no priority: the regex reads the creation date `D` as the
    completion date, and the creation date is lost.
   */
  lemma MarkThenDate(d: TodoDict)
    requires Readable(d) && d.completed && d.completionDate.None? && d.priority.None? && d.creationDate.Some?
    ensures ParseLine(RenderLine(d)) == d.(completionDate := d.creationDate, creationDate := None)
  {
    ReadRendered(d);
  }

  /**
    `(A) D text` on an open todo: the creation date sits in the second date
    group, which only a completed line keeps, so it is lost.
   */
  lemma LostDate(d: TodoDict)
    requires Readable(d) && !d.completed && d.priority.Some? && d.creationDate.Some?
    ensures ParseLine(RenderLine(d)) == d.(creationDate := None)
  {
    ReadRendered(d);
  }

  /** The prefix groups hold no line break. */
  lemma PrefixTextNoBreak(q: Prefix)
    requires WellFormed(q)
    ensures HasNoBreak(PrefixText(q))
  {
    var m := MarkText(q.done);
    var a := DateText(q.date1);
    var p := PriorityText(q.priority);
    var c := DateText(q.date2);
    assert HasNoBreak(m);
    assert HasNoBreak(a);
    assert HasNoBreak(p);
    assert HasNoBreak(c);
    NoBreakAppend(m, a);
    NoBreakAppend(m + a, p);
    NoBreakAppend(m + a + p, c);
  }

  /** The line `str(d)` writes for a readable todo with a one-line text is one stripped, non-empty line. */
  lemma RenderedLine(d: TodoDict)
    requires Readable(d) && HasNoBreak(d.text)
    ensures RenderLine(d) != [] && IsStripped(RenderLine(d)) && HasNoBreak(RenderLine(d))
  {
    var q := PrefixOf(d);
    var P := MarkedWords('+', d.projects);
    var C := MarkedWords('@', d.contexts);
    var T := PairWords(d.tags);
    RenderLineShape(d);
    RestStripped(d);
    PrefixOfFields(d);
    PrefixTextStart(q);
    StrippedAfter(PrefixText(q), d.text + TokenText(d));
    assert HasNoBreak(TokenText(d)) by {
      MarkedWordsSolid('+', d.projects);
      MarkedWordsSolid('@', d.contexts);
      PairWordsSolid(d.tags);
      SpacedNoBreak(P);
      SpacedNoBreak(C);
      SpacedNoBreak(T);
      NoBreakAppend(Spaced(P), Spaced(C));
      NoBreakAppend(Spaced(P) + Spaced(C), Spaced(T));
    }
    PrefixTextNoBreak(q);
    NoBreakAppend(d.text, TokenText(d));
    NoBreakAppend(PrefixText(q), d.text + TokenText(d));
  }

  /** Stripped, non-empty, break-free lines joined with `'\n'` are the lines `from_string` reads. */
  lemma LinesOfJoin(lines: seq<string>)
    requires forall i :: 0 <= i < |lines| ==> lines[i] != [] && IsStripped(lines[i]) && HasNoBreak(lines[i])
    ensures Lines(Join("\n", lines)) == lines
  {
    var s := Join("\n", lines);
    if lines == [] {
      assert Strip(s) == [];
    } else {
      JoinEnds("\n", lines);
      assert IsStripped(s);
      assert Strip(s) == s;
      SplitLinesJoin(lines);
    }
    assert Lines(s) == SplitLines(Strip(s));
  }

  /**
    `from_string(to_string(todos))` on the dicts: the lines of readable todos
    with one-line texts, joined with `'\n'`, read back as the same dicts.
   */
  lemma ReadAllRendered(ds: seq<TodoDict>)
    requires forall i :: 0 <= i < |ds| ==> ReadsBack(ds[i]) && HasNoBreak(ds[i].text)
    ensures ParseLines(Lines(Join("\n", RenderAll(ds)))) == ds
  {
    var lines := RenderAll(ds);
    assert Lines(Join("\n", lines)) == lines by {
      forall i | 0 <= i < |lines| ensures lines[i] != [] && IsStripped(lines[i]) && HasNoBreak(lines[i]) {
        RenderedLine(ds[i]);
      }
      LinesOfJoin(lines);
    }
    forall i | 0 <= i < |ds| ensures ParseLines(lines)[i] == ds[i] {
      ParseRenderLine(ds[i]);
    }
  }
}
