/**
  The four regular expressions of todotxtio (todotxtio.py:19-22), written
  out as scanners. `findall` and `sub('')` walk the string left to right and
  take non-overlapping matches, so each scanner returns the matches found
  and the text left once they are cut out.
 */
module Patterns {
  import opened Wrappers
  import opened Text

  // ---------------------------------------------------------------------
  // The prefix regex `^(?:(x) )?(?:(DATE) )?(?:\(([A-Z])\) )?(?:(DATE) )?`
  // ---------------------------------------------------------------------

  /** `\d{4}-\d{2}-\d{2}`, all of `d`. */
  predicate IsDate(d: string)
  {
    |d| == 10 &&
    IsDigit(d[0]) && IsDigit(d[1]) && IsDigit(d[2]) && IsDigit(d[3]) && d[4] == '-' &&
    IsDigit(d[5]) && IsDigit(d[6]) && d[7] == '-' && IsDigit(d[8]) && IsDigit(d[9])
  }

  /** `[A-Z]`, all of `p`. */
  predicate IsPriority(p: string)
  {
    |p| == 1 && 'A' <= p[0] <= 'Z'
  }

  /** `s` starts with the completion mark `x `. */
  predicate MarkAt(s: string)
  {
    |s| >= 2 && s[0] == 'x' && s[1] == ' '
  }

  /** `s` starts with a date and a space. */
  predicate DateAt(s: string)
  {
    |s| >= 11 && IsDate(s[..10]) && s[10] == ' '
  }

  /** `s` starts with `(`, an upper-case letter, `)` and a space. */
  predicate PriorityAt(s: string)
  {
    |s| >= 4 && s[0] == '(' && IsPriority(s[1..2]) && s[2] == ')' && s[3] == ' '
  }

  /** `s` starts with something one of the prefix groups could take. */
  predicate FieldAt(s: string)
  {
    MarkAt(s) || DateAt(s) || PriorityAt(s)
  }

  /** The four groups of a prefix match: `x`, the first date, the priority letter, the second date. */
  datatype Prefix = Prefix(done: bool, date1: Option<string>, priority: Option<string>, date2: Option<string>)

  predicate WellFormed(p: Prefix)
  {
    (p.date1.Some? ==> IsDate(p.date1.value)) &&
    (p.priority.Some? ==> IsPriority(p.priority.value)) &&
    (p.date2.Some? ==> IsDate(p.date2.value))
  }

  /**
    A lone date matches the first date group, never the second, so a prefix
    whose only date is in the second group is not one the regex produces.
   */
  predicate Canonical(p: Prefix)
  {
    !(p.date1.None? && p.priority.None? && p.date2.Some?)
  }

  function MarkText(done: bool): string
  {
    if done then "x " else ""
  }

  function DateText(d: Option<string>): string
  {
    if d.Some? then d.value + " " else ""
  }

  function PriorityText(p: Option<string>): string
  {
    if p.Some? then "(" + p.value + ") " else ""
  }

  /** The text a prefix match covers: every present group with the space after it. */
  function PrefixText(p: Prefix): string
  {
    MarkText(p.done) + DateText(p.date1) + PriorityText(p.priority) + DateText(p.date2)
  }

  /** `(?:(x) )?`: the mark and what follows it. */
  function TakeMark(s: string): (r: (bool, string))
    ensures r.0 == MarkAt(s)
  {
    if MarkAt(s) then (true, s[2..]) else (false, s)
  }

  /** The mark and the text after it make up the whole input. */
  lemma TakeMarkSplits(s: string)
    ensures MarkText(TakeMark(s).0) + TakeMark(s).1 == s
  {
    if MarkAt(s) {
      assert s == "x " + s[2..];
    }
  }

  /** `(?:(\d{4}-\d{2}-\d{2}) )?`: the date and what follows it. */
  function TakeDate(s: string): (r: (Option<string>, string))
    ensures r.0.Some? <==> DateAt(s)
    ensures r.0.Some? ==> IsDate(r.0.value)
  {
    if DateAt(s) then (Some(s[..10]), s[11..]) else (None, s)
  }

  /** The date and the text after it make up the whole input. */
  lemma TakeDateSplits(s: string)
    ensures DateText(TakeDate(s).0) + TakeDate(s).1 == s
  {
    if DateAt(s) {
      assert s == s[..10] + " " + s[11..];
    }
  }

  /** `(?:\(([A-Z])\) )?`: the priority letter and what follows it. */
  function TakePriority(s: string): (r: (Option<string>, string))
    ensures r.0.Some? <==> PriorityAt(s)
    ensures r.0.Some? ==> IsPriority(r.0.value)
  {
    if PriorityAt(s) then (Some(s[1..2]), s[4..]) else (None, s)
  }

  /** The priority and the text after it make up the whole input. */
  lemma TakePrioritySplits(s: string)
    ensures PriorityText(TakePriority(s).0) + TakePriority(s).1 == s
  {
    if PriorityAt(s) {
      assert s == "(" + s[1..2] + ") " + s[4..];
    }
  }

  /**
    `todo_data_regex.match(s)`. Every group is optional and nothing follows
    them, so the match never fails and each group is taken whenever it can
    be; the result also gives the text after the match.
   */
  function MatchPrefix(s: string): (r: (Prefix, string))
    ensures WellFormed(r.0)
  {
    var m := TakeMark(s);
    var d1 := TakeDate(m.1);
    var pr := TakePriority(d1.1);
    var d2 := TakeDate(pr.1);
    (Prefix(m.0, d1.0, pr.0, d2.0), d2.1)
  }

  /** The match and the text after it make up the whole input. */
  lemma MatchPrefixSplits(s: string)
    ensures PrefixText(MatchPrefix(s).0) + MatchPrefix(s).1 == s
  {
    var m := TakeMark(s);
    var d1 := TakeDate(m.1);
    var pr := TakePriority(d1.1);
    var d2 := TakeDate(pr.1);
    TakeMarkSplits(s);
    TakeDateSplits(m.1);
    TakePrioritySplits(d1.1);
    TakeDateSplits(pr.1);
    PrefixTextThen(Prefix(m.0, d1.0, pr.0, d2.0), d2.1);
  }

  /**
    The prefix text and what follows, regrouped group by group. Proved on its
    own: asserted inside `MatchPrefixSplits` or `MatchPrefixText`, where the
    four `Take` steps are in scope, the same equation runs out of resource.
   */
  lemma PrefixTextThen(p: Prefix, rest: string)
    ensures PrefixText(p) + rest ==
      MarkText(p.done) + (DateText(p.date1) + (PriorityText(p.priority) + (DateText(p.date2) + rest)))
  {
  }

  /** A group is absent only when the text at its place cannot start it. */
  lemma MatchPrefixGreedy(s: string)
    ensures var p := MatchPrefix(s).0;
      var s1 := s[|MarkText(p.done)|..];
      var s2 := s1[|DateText(p.date1)|..];
      var s3 := s2[|PriorityText(p.priority)|..];
      (!p.done ==> !MarkAt(s)) &&
      (p.date1.None? ==> !DateAt(s1)) &&
      (p.priority.None? ==> !PriorityAt(s2)) &&
      (p.date2.None? ==> !DateAt(s3))
  {
    var (done, s1) := TakeMark(s);
    var (date1, s2) := TakeDate(s1);
    var (priority, s3) := TakePriority(s2);
    assert s1 == s[|MarkText(done)|..];
    assert s2 == s1[|DateText(date1)|..];
    assert s3 == s2[|PriorityText(priority)|..];
  }

  /**
    The inverse direction: the regex reads back a canonical prefix from its
    text, provided what follows could not itself start a group.
   */
  lemma MatchPrefixText(q: Prefix, rest: string)
    requires WellFormed(q) && Canonical(q)
    requires !FieldAt(rest)
    ensures MatchPrefix(PrefixText(q) + rest) == (q, rest)
  {
    var t3 := DateText(q.date2) + rest;
    var t2 := PriorityText(q.priority) + t3;
    var t1 := DateText(q.date1) + t2;
    PrefixTextThen(q, rest);
    if q.date1.None? {
      if q.priority.Some? {
        assert t2[0] == '(';
      } else {
        assert t3 == rest && t2 == rest;
      }
    }
    TakeMarkText(q.done, t1);
    TakeDateText(q.date1, t2);
    TakePriorityText(q.priority, t3);
    TakeDateText(q.date2, rest);
  }

  lemma TakeMarkText(done: bool, t: string)
    requires !done ==> !MarkAt(t)
    ensures TakeMark(MarkText(done) + t) == (done, t)
  {
    if done {
      var s := "x " + t;
      assert MarkText(done) + t == s && MarkAt(s) && s[2..] == t;
    } else {
      assert MarkText(done) + t == t;
    }
  }

  lemma TakeDateText(d: Option<string>, t: string)
    requires d.Some? ==> IsDate(d.value)
    requires d.None? ==> !DateAt(t)
    ensures TakeDate(DateText(d) + t) == (d, t)
  {
    if d.Some? {
      var s := d.value + " " + t;
      assert s[..10] == d.value && s[10] == ' ' && s[11..] == t;
      assert DateText(d) + t == s && DateAt(s);
    } else {
      assert DateText(d) + t == t;
    }
  }

  lemma TakePriorityText(p: Option<string>, t: string)
    requires p.Some? ==> IsPriority(p.value)
    requires p.None? ==> !PriorityAt(t)
    ensures TakePriority(PriorityText(p) + t) == (p, t)
  {
    if p.Some? {
      var s := "(" + p.value + ") " + t;
      assert s[0] == '(' && s[1..2] == p.value && s[2] == ')' && s[3] == ' ' && s[4..] == t;
      assert PriorityText(p) + t == s && PriorityAt(s);
    } else {
      assert PriorityText(p) + t == t;
    }
  }

  // ---------------------------------------------------------------------
  // ` \+(\S+)` and ` @(\S+)`
  // ---------------------------------------------------------------------

  /** The result of `findall` and `sub('')` with one regex over one string. */
  datatype Scan<T> = Scan(found: seq<T>, rest: string)

  /** `\S*` at the start of `s`: the length of the leading run of non-whitespace. */
  function RunLength(s: string): (n: nat)
    ensures n <= |s| && HasNoSpace(s[..n])
    ensures n == |s| || IsSpace(s[n])
  {
    if s == [] || IsSpace(s[0]) then 0 else 1 + RunLength(s[1..])
  }

  /** A match of ` ` + mark + `(\S+)` starts at `s[0]`. */
  predicate MarkedAt(s: string, mark: char)
  {
    |s| >= 3 && s[0] == ' ' && s[1] == mark && !IsSpace(s[2])
  }

  /**
    `findall` and `sub('')` for ` \+(\S+)` (mark `+`) or ` @(\S+)` (mark `@`):
    the words after the mark, left to right, and the text with every
    match cut out. Every match cuts at least three characters.
   */
  function ScanMarked(s: string, mark: char): (r: Scan<string>)
    ensures |r.rest| <= |s|
    decreases |s|
  {
    if s == [] then Scan([], [])
    else if MarkedAt(s, mark) then
      var n := 2 + RunLength(s[2..]);
      var tail := ScanMarked(s[n..], mark);
      assert s[2..n] == s[2..][..n - 2];
      Scan([s[2..n]] + tail.found, tail.rest)
    else
      var tail := ScanMarked(s[1..], mark);
      Scan(tail.found, [s[0]] + tail.rest)
  }

  /** Every word found is non-empty and free of whitespace. */
  lemma {:induction false} ScanMarkedFound(s: string, mark: char)
    ensures forall i :: 0 <= i < |ScanMarked(s, mark).found| ==>
      ScanMarked(s, mark).found[i] != [] && HasNoSpace(ScanMarked(s, mark).found[i])
    decreases |s|
  {
    if s != [] {
      if MarkedAt(s, mark) {
        var n := 2 + RunLength(s[2..]);
        ScanMarkedFound(s[n..], mark);
        assert s[2..n] == s[2..][..n - 2];
      } else {
        ScanMarkedFound(s[1..], mark);
      }
    }
  }

  /** `s` holds no match of the mark's regex anywhere. */
  predicate NoMarked(s: string, mark: char)
  {
    forall i :: 0 <= i < |s| ==> !MarkedAt(s[i..], mark)
  }

  // ---------------------------------------------------------------------
  // ` (\S+):([^\s\/]+)`
  // ---------------------------------------------------------------------

  /**
    In the word `w`, position `j` can end the key: it holds a colon, at
    least one character precedes it, and the character after it exists and
    is not a slash.
   */
  predicate KeyColon(w: string, j: int)
  {
    1 <= j && j + 1 < |w| && w[j] == ':' && w[j + 1] != '/'
  }

  /**
    Where the greedy key `\S+` stops: backtracking from the end of the word,
    the first (so the last in the word) colon that can end the key.
   */
  function KeyEnd(w: string): (k: Option<nat>)
    ensures k.Some? ==> KeyColon(w, k.value)
  {
    if |w| < 3 then None
    else if KeyColon(w, |w| - 2) then Some(|w| - 2)
    else
      var k := KeyEnd(w[..|w| - 1]);
      assert k.Some? ==> KeyColon(w, k.value);
      k
  }

  /** No colon after the one `KeyEnd` picks can end the key. */
  lemma {:induction false} KeyEndMax(w: string, j: int)
    requires KeyColon(w, j)
    ensures KeyEnd(w).Some? && j <= KeyEnd(w).value
    decreases |w|
  {
    if j != |w| - 2 && !KeyColon(w, |w| - 2) {
      assert KeyColon(w[..|w| - 1], j);
      KeyEndMax(w[..|w| - 1], j);
    }
  }

  /** `[^\s\/]*` at the start of `s`. */
  function ValueLength(s: string): (n: nat)
    ensures n <= |s|
  {
    if s == [] || IsSpace(s[0]) || s[0] == '/' then 0 else 1 + ValueLength(s[1..])
  }

  /**
    The characters `ValueLength` covers are neither whitespace nor a slash,
    and the value stops only at the end, at whitespace or at a slash.
   */
  lemma {:induction false} ValueLengthStops(s: string)
    ensures forall i :: 0 <= i < ValueLength(s) ==> !IsSpace(s[i]) && s[i] != '/'
    ensures var n := ValueLength(s); n == |s| || IsSpace(s[n]) || s[n] == '/'
    decreases |s|
  {
    if s != [] && !IsSpace(s[0]) && s[0] != '/' {
      ValueLengthStops(s[1..]);
      assert ValueLength(s) == |s| || s[ValueLength(s)] == s[1..][ValueLength(s[1..])];
      forall i | 1 <= i < ValueLength(s) ensures !IsSpace(s[i]) && s[i] != '/' {
        assert s[i] == s[1..][i - 1];
      }
    }
  }

  /** The non-whitespace word that starts `s`. */
  function Word(s: string): (w: string)
    ensures HasNoSpace(w)
  {
    s[..RunLength(s)]
  }

  predicate IsTagValue(v: string)
  {
    v != [] && forall i :: 0 <= i < |v| ==> !IsSpace(v[i]) && v[i] != '/'
  }

  /** One match of the tag regex: its two groups and how much text it covers. */
  datatype TagHit = TagHit(key: string, value: string, len: nat)

  /** The match of the tag regex that starts at `s[0]`, if there is one. */
  function TagMatch(s: string): (m: Option<TagHit>)
    ensures m.Some? ==> 4 <= m.value.len <= |s|
  {
    if |s| >= 1 && s[0] == ' ' then
      var w := Word(s[1..]);
      match KeyEnd(w)
      case None => None
      case Some(k) =>
        assert s[k + 2] == w[k + 1];
        var n := k + 2 + ValueLength(s[k + 2..]);
        Some(TagHit(s[1..k + 1], s[k + 2..n], n))
    else None
  }

  /**
    A match is a space, a non-empty key without whitespace, a colon and a
    tag value, and covers exactly those characters.
   */
  lemma TagMatchParts(s: string)
    requires TagMatch(s).Some?
    ensures var m := TagMatch(s).value;
      m.key != [] && HasNoSpace(m.key) && IsTagValue(m.value) &&
      s[0] == ' ' && s[1..m.len] == m.key + ":" + m.value
  {
    var w := Word(s[1..]);
    var k := KeyEnd(w).value;
    var n := k + 2 + ValueLength(s[k + 2..]);
    assert s[1..k + 1] == w[..k];
    assert s[1..n] == s[1..k + 1] + ":" + s[k + 2..n];
    ValueLengthStops(s[k + 2..]);
    var v := s[k + 2..n];
    forall i | 0 <= i < |v| ensures !IsSpace(v[i]) && v[i] != '/' {
      assert v[i] == s[k + 2..][i];
    }
  }

  predicate TagAt(s: string)
  {
    TagMatch(s).Some?
  }

  /**
    `findall` and `sub('')` for the tag regex: the (key, value) pairs left
    to right, and the text with every match cut out. Every match cuts at
    least four characters.
   */
  function ScanTags(s: string): (r: Scan<(string, string)>)
    ensures |r.rest| + 4 * |r.found| <= |s|
    decreases |s|
  {
    if s == [] then Scan([], [])
    else
      match TagMatch(s)
      case Some(hit) =>
        var tail := ScanTags(s[hit.len..]);
        Scan([(hit.key, hit.value)] + tail.found, tail.rest)
      case None =>
        var tail := ScanTags(s[1..]);
        Scan(tail.found, [s[0]] + tail.rest)
  }

  /** Every pair found has a non-empty key without whitespace and a tag value. */
  lemma {:induction false} ScanTagsFound(s: string)
    ensures forall i :: 0 <= i < |ScanTags(s).found| ==>
      ScanTags(s).found[i].0 != [] && HasNoSpace(ScanTags(s).found[i].0) && IsTagValue(ScanTags(s).found[i].1)
    decreases |s|
  {
    if s != [] {
      match TagMatch(s)
      case Some(hit) =>
        TagMatchParts(s);
        ScanTagsFound(s[hit.len..]);
      case None => ScanTagsFound(s[1..]);
    }
  }

  /** `s` holds no match of the tag regex anywhere. */
  predicate NoTags(s: string)
  {
    forall i :: 0 <= i < |s| ==> !TagAt(s[i..])
  }

  // ---------------------------------------------------------------------
  // How the scanners behave on joined pieces
  // ---------------------------------------------------------------------

  /** A run of non-whitespace stops at a following whitespace character. */
  lemma {:induction false} RunLengthAppend(x: string, b: string)
    requires b == [] || IsSpace(b[0])
    ensures RunLength(x + b) == RunLength(x)
  {
    if x != [] && !IsSpace(x[0]) {
      assert (x + b)[1..] == x[1..] + b;
      RunLengthAppend(x[1..], b);
    } else if x == [] {
      assert x + b == b;
    }
  }

  /**
    Scanning stops at a boundary: when `b` is empty or starts with
    whitespace, no match of the mark's regex straddles `a` and `b`.
   */
  lemma {:induction false} ScanMarkedAppend(a: string, b: string, mark: char)
    requires !IsSpace(mark)
    requires b == [] || IsSpace(b[0])
    ensures ScanMarked(a + b, mark) ==
      Scan(ScanMarked(a, mark).found + ScanMarked(b, mark).found,
           ScanMarked(a, mark).rest + ScanMarked(b, mark).rest)
    decreases |a|
  {
    var B := ScanMarked(b, mark);
    if a == [] {
      assert a + b == b;
    } else if MarkedAt(a, mark) {
      var n := 2 + RunLength(a[2..]);
      MarkedAppend(a, b, mark, n);
      ScanMarkedAppend(a[n..], b, mark);
      var T := ScanMarked(a[n..], mark);
      assert ScanMarked(a, mark) == Scan([a[2..n]] + T.found, T.rest);
      assert ScanMarked(a + b, mark) == Scan([a[2..n]] + (T.found + B.found), T.rest + B.rest);
      ConcatAssoc([a[2..n]], T.found, B.found);
    } else {
      UnmarkedAppend(a, b, mark);
      ScanMarkedAppend(a[1..], b, mark);
      var T := ScanMarked(a[1..], mark);
      assert ScanMarked(a, mark) == Scan(T.found, [a[0]] + T.rest);
      assert ScanMarked(a + b, mark) == Scan(T.found + B.found, [a[0]] + (T.rest + B.rest));
      ConcatAssoc([a[0]], T.rest, B.rest);
    }
  }

  lemma MarkedAppend(a: string, b: string, mark: char, n: nat)
    requires b == [] || IsSpace(b[0])
    requires MarkedAt(a, mark) && n == 2 + RunLength(a[2..])
    ensures MarkedAt(a + b, mark)
    ensures n == 2 + RunLength((a + b)[2..]) && n <= |a|
    ensures (a + b)[n..] == a[n..] + b && (a + b)[2..n] == a[2..n]
  {
    assert (a + b)[2..] == a[2..] + b;
    RunLengthAppend(a[2..], b);
  }

  lemma UnmarkedAppend(a: string, b: string, mark: char)
    requires !IsSpace(mark)
    requires b == [] || IsSpace(b[0])
    requires a != [] && !MarkedAt(a, mark)
    ensures !MarkedAt(a + b, mark)
    ensures (a + b)[1..] == a[1..] + b && (a + b)[0] == a[0]
  {
    if |a| < 3 && b != [] {
      assert IsSpace((a + b)[|a|]);
    }
  }

  /** Text without a match passes through unchanged. */
  lemma {:induction false} ScanMarkedNone(s: string, mark: char)
    requires NoMarked(s, mark)
    ensures ScanMarked(s, mark) == Scan([], s)
    decreases |s|
  {
    if s != [] {
      assert !MarkedAt(s[0..], mark);
      assert s[0..] == s;
      assert NoMarked(s[1..], mark) by {
        forall i | 0 <= i < |s[1..]| ensures !MarkedAt(s[1..][i..], mark) {
          assert s[1..][i..] == s[i + 1..];
        }
      }
      ScanMarkedNone(s[1..], mark);
    }
  }

  /** The names of a list, each with the mark in front of it. */
  function MarkedWords(mark: char, names: seq<string>): seq<string>
  {
    seq(|names|, i requires 0 <= i < |names| => [mark] + names[i])
  }

  /** A name `__str__` renders so that the mark's regex reads it back whole. */
  predicate PlainName(name: string)
  {
    name != [] && HasNoSpace(name)
  }

  /** The marked names, each with a space before it, are all found and all cut out. */
  lemma {:induction false} ScanMarkedNames(names: seq<string>, mark: char)
    requires !IsSpace(mark)
    requires forall i :: 0 <= i < |names| ==> PlainName(names[i])
    ensures ScanMarked(Spaced(MarkedWords(mark, names)), mark) == Scan(names, [])
  {
    if names != [] {
      var words := MarkedWords(mark, names);
      var tail := Spaced(words[1..]);
      assert Spaced(words) == " " + words[0] + tail;
      assert words[1..] == MarkedWords(mark, names[1..]);
      ScanMarkedNames(names[1..], mark);
      ScanMarkedName(names[0], tail, mark);
      assert [names[0]] + names[1..] == names;
    }
  }

  lemma ScanMarkedName(name: string, tail: string, mark: char)
    requires !IsSpace(mark) && PlainName(name)
    requires tail == [] || IsSpace(tail[0])
    ensures ScanMarked(" " + ([mark] + name) + tail, mark) ==
      Scan([name] + ScanMarked(tail, mark).found, ScanMarked(tail, mark).rest)
  {
    var s := " " + ([mark] + name) + tail;
    assert MarkedAt(s, mark) by { assert s[1] == mark && s[2] == name[0]; }
    assert s[2..] == name + tail;
    RunLengthAppend(name, tail);
    RunLengthWhole(name);
    assert s[2 + |name|..] == tail;
    assert s[2..2 + |name|] == name;
  }

  /** Words that do not start with the mark hold no match and stay in the text. */
  lemma {:induction false} ScanMarkedOtherWords(words: seq<string>, mark: char)
    requires !IsSpace(mark)
    requires forall i :: 0 <= i < |words| ==> words[i] != [] && words[i][0] != mark && HasNoSpace(words[i])
    ensures ScanMarked(Spaced(words), mark) == Scan([], Spaced(words))
  {
    if words != [] {
      var w := words[0];
      var tail := Spaced(words[1..]);
      assert Spaced(words) == (" " + w) + tail;
      assert tail == [] || IsSpace(tail[0]);
      assert NoMarked(" " + w, mark) by {
        forall i | 0 <= i < |" " + w| ensures !MarkedAt((" " + w)[i..], mark) {
          if i > 0 {
            assert (" " + w)[i] == w[i - 1];
          }
        }
      }
      ScanMarkedNone(" " + w, mark);
      ScanMarkedAppend(" " + w, tail, mark);
      ScanMarkedOtherWords(words[1..], mark);
    }
  }

  lemma {:induction false} RunLengthWhole(w: string)
    requires HasNoSpace(w)
    ensures RunLength(w) == |w|
  {
    if w != [] {
      assert HasNoSpace(w[1..]);
      RunLengthWhole(w[1..]);
    }
  }

  /** Cutting matches out of text that starts blank leaves text that starts blank. */
  lemma {:induction false} RestStartsBlank(s: string, mark: char)
    requires s == [] || IsSpace(s[0])
    ensures var r := ScanMarked(s, mark).rest; r == [] || IsSpace(r[0])
    decreases |s|
  {
    if s != [] && MarkedAt(s, mark) {
      var n := 2 + RunLength(s[2..]);
      assert n == |s| || IsSpace(s[n]) by { assert s[2..][n - 2..] == s[n..]; }
      RestStartsBlank(s[n..], mark);
    }
  }

  /**
    `findall` leaves nothing behind: the text with every match cut out holds
    no further match, although cutting joins text that was apart.
   */
  lemma {:induction false} ScanMarkedExhaustive(s: string, mark: char)
    requires !IsSpace(mark)
    ensures NoMarked(ScanMarked(s, mark).rest, mark)
    decreases |s|
  {
    if s != [] && MarkedAt(s, mark) {
      ScanMarkedExhaustive(s[2 + RunLength(s[2..])..], mark);
    } else if s != [] {
      ScanMarkedExhaustive(s[1..], mark);
      var R := ScanMarked(s[1..], mark).rest;
      var r := [s[0]] + R;
      assert ScanMarked(s, mark).rest == r;
      assert !MarkedAt(r, mark) by {
        if s[0] == ' ' && |R| >= 2 {
          if s[1] == mark {
            assert |s| == 2 || IsSpace(s[2]);
            assert !MarkedAt(s[1..], mark);
            assert s[1..][1..] == s[2..];
            assert R == [mark] + ScanMarked(s[2..], mark).rest;
            RestStartsBlank(s[2..], mark);
            assert IsSpace(R[1]);
          } else if MarkedAt(s[1..], mark) {
            var t := s[1..];
            var n := 2 + RunLength(t[2..]);
            assert n == |t| || IsSpace(t[n]) by { assert t[2..][n - 2..] == t[n..]; }
            RestStartsBlank(t[n..], mark);
            assert R == ScanMarked(t[n..], mark).rest;
          } else {
            assert R[0] == s[1];
          }
        }
      }
      forall i | 0 <= i < |r| ensures !MarkedAt(r[i..], mark) {
        if i > 0 {
          assert r[i..] == R[i - 1..];
        }
      }
    }
  }

  /** The word `w` has a colon that can end a key. */
  predicate HasKeyColon(w: string)
  {
    exists j :: 0 <= j < |w| && KeyColon(w, j)
  }

  /** `KeyEnd` finds a colon exactly when the word has one that can end a key. */
  lemma KeyEndFinds(w: string)
    ensures KeyEnd(w).Some? <==> HasKeyColon(w)
  {
    if HasKeyColon(w) {
      var j :| KeyColon(w, j);
      KeyEndMax(w, j);
    }
  }

  /** A colon that can end a key never lies after the one `KeyEnd` picks. */
  lemma KeyEndBound(w: string, j: int)
    ensures KeyColon(w, j) ==> KeyEnd(w).Some? && j <= KeyEnd(w).value
  {
    if KeyColon(w, j) {
      KeyEndMax(w, j);
    }
  }

  /**
    Joining on text that starts with a slash makes no new colon that can end
    a key: a colon at the seam is followed by the slash.
   */
  lemma SlashJoin(x: string, y: string)
    requires y == [] || y[0] == '/'
    requires !HasKeyColon(x) && !HasKeyColon(y)
    ensures !HasKeyColon(x + y)
  {
    var xy := x + y;
    forall j | 0 <= j < |xy| ensures !KeyColon(xy, j) {
      if j + 1 < |x| {
        assert !KeyColon(x, j);
      } else if j > |x| {
        assert !KeyColon(y, j - |x|);
        assert xy[j] == y[j - |x|];
        assert j + 1 < |xy| ==> xy[j + 1] == y[j + 1 - |x|];
      } else if y != [] {
        assert xy[|x|] == '/';
      }
    }
  }

  /** The word of text that starts blank is empty. */
  lemma WordBlank(s: string)
    requires s == [] || IsSpace(s[0])
    ensures Word(s) == []
  {
  }

  /** A non-whitespace character joins the word after it. */
  lemma WordCons(c: char, x: string)
    requires !IsSpace(c)
    ensures Word([c] + x) == [c] + Word(x)
  {
    assert ([c] + x)[1..] == x;
  }

  /** Dropping the start of a word drops the same characters from the text. */
  lemma {:induction false} WordDrop(x: string, m: nat)
    requires m <= RunLength(x)
    ensures Word(x[m..]) == Word(x)[m..]
    decreases m
  {
    if m > 0 {
      WordDrop(x[1..], m - 1);
      assert x[1..][m - 1..] == x[m..];
      WordCons(x[0], x[1..]);
      assert [x[0]] + x[1..] == x;
    }
  }

  /**
    When a tag match is followed by a non-whitespace character, its value
    stopped at a slash, and the word after the space runs at least to it.
   */
  lemma TagStopsAtSlash(t: string)
    requires TagMatch(t).Some? && TagMatch(t).value.len < |t|
    requires !IsSpace(t[TagMatch(t).value.len])
    ensures var n := TagMatch(t).value.len; t[n] == '/' && n <= RunLength(t[1..])
  {
    var x := t[1..];
    var k := KeyEnd(Word(x)).value;
    TagMatchAt(t, k);
    var n := TagMatch(t).value.len;
    var v := t[k + 2..];
    ValueLengthStops(v);
    assert t[n] == v[n - k - 2];
  }

  /**
    When a tag match is followed by a non-whitespace character, the word
    that starts there begins with the slash the value stopped at and holds
    no colon that can end a key: otherwise the greedy key would have reached
    that colon.
   */
  lemma SlashAfterTag(t: string)
    requires TagMatch(t).Some? && TagMatch(t).value.len < |t|
    requires !IsSpace(t[TagMatch(t).value.len])
    ensures var v := Word(t[TagMatch(t).value.len..]);
      v != [] && v[0] == '/' && !HasKeyColon(v)
  {
    var x := t[1..];
    var w := Word(x);
    var n := TagMatch(t).value.len;
    TagStopsAtSlash(t);
    WordDrop(x, n - 1);
    assert x[n - 1..] == t[n..];
    var v := w[n - 1..];
    forall j | 0 <= j < |v| ensures !KeyColon(v, j) {
      KeyEndBound(w, n - 1 + j);
      assert KeyColon(v, j) ==> KeyColon(w, n - 1 + j);
    }
  }

  /**
    The word that starts the text the tag scan leaves is the word that
    starts its input, followed by a run that starts with a slash and holds
    no colon that can end a key.
   */
  lemma {:induction false} ScanTagsWord(t: string) returns (u: string)
    ensures u == [] || u[0] == '/'
    ensures !HasKeyColon(u)
    ensures Word(ScanTags(t).rest) == Word(t) + u
    decreases |t|
  {
    if t == [] {
      u := [];
    } else if TagMatch(t).Some? {
      var u' := ScanTagsWord(t[TagMatch(t).value.len..]);
      u := WordAfterHit(t, u');
    } else {
      var u' := ScanTagsWord(t[1..]);
      assert ScanTags(t).rest == [t[0]] + ScanTags(t[1..]).rest;
      u := WordAfterKeep(t[0], t[1..], ScanTags(t[1..]).rest, u');
      assert [t[0]] + t[1..] == t;
    }
  }

  /** `ScanTagsWord` when a match starts the text: the match is cut and the word starts after it. */
  lemma WordAfterHit(t: string, u': string) returns (u: string)
    requires TagMatch(t).Some?
    requires u' == [] || u'[0] == '/'
    requires !HasKeyColon(u')
    requires var t' := t[TagMatch(t).value.len..]; Word(ScanTags(t').rest) == Word(t') + u'
    ensures u == [] || u[0] == '/'
    ensures !HasKeyColon(u)
    ensures Word(ScanTags(t).rest) == Word(t) + u
  {
    var t' := t[TagMatch(t).value.len..];
    assert ScanTags(t).rest == ScanTags(t').rest;
    WordBlank(t);
    if t' == [] || IsSpace(t'[0]) {
      WordBlank(t');
      u := u';
    } else {
      SlashAfterTag(t);
      SlashJoin(Word(t'), u');
      u := Word(t') + u';
    }
  }

  /** `ScanTagsWord` when no match starts the text: the first character `c` is kept. */
  lemma WordAfterKeep(c: char, x: string, R: string, u': string) returns (u: string)
    requires u' == [] || u'[0] == '/'
    requires !HasKeyColon(u')
    requires Word(R) == Word(x) + u'
    ensures u == [] || u[0] == '/'
    ensures !HasKeyColon(u)
    ensures Word([c] + R) == Word([c] + x) + u
  {
    if IsSpace(c) {
      WordBlank([c] + x);
      WordBlank([c] + R);
      u := [];
    } else {
      WordCons(c, x);
      WordCons(c, R);
      u := u';
    }
  }

  /**
    `findall` with the tag regex leaves nothing behind: the text with every
    match cut out holds no further match, although cutting joins text that
    was apart.
   */
  lemma {:induction false} ScanTagsExhaustive(s: string)
    ensures NoTags(ScanTags(s).rest)
    decreases |s|
  {
    if s != [] {
      match TagMatch(s)
      case Some(hit) =>
        ScanTagsExhaustive(s[hit.len..]);
      case None =>
        ScanTagsExhaustive(s[1..]);
        var R := ScanTags(s[1..]).rest;
        var r := [s[0]] + R;
        assert ScanTags(s).rest == r;
        assert !TagAt(r) by {
          if s[0] == ' ' {
            var u := ScanTagsWord(s[1..]);
            KeyEndFinds(Word(s[1..]));
            SlashJoin(Word(s[1..]), u);
            KeyEndFinds(Word(R));
            assert r[1..] == R;
          }
        }
        forall i | 0 <= i < |r| ensures !TagAt(r[i..]) {
          if i > 0 {
            assert r[i..] == R[i - 1..];
          }
        }
    }
  }

  /** A word stops at a following whitespace character. */
  lemma WordAppend(x: string, b: string)
    requires b == [] || IsSpace(b[0])
    ensures Word(x + b) == Word(x)
  {
    RunLengthAppend(x, b);
  }

  lemma {:induction false} ValueLengthAppend(x: string, b: string)
    requires b == [] || IsSpace(b[0])
    ensures ValueLength(x + b) == ValueLength(x)
  {
    if x == [] {
      assert x + b == b;
    } else if !IsSpace(x[0]) && x[0] != '/' {
      assert (x + b)[1..] == x[1..] + b;
      ValueLengthAppend(x[1..], b);
    }
  }

  lemma {:induction false} ValueLengthWhole(v: string)
    requires forall i :: 0 <= i < |v| ==> !IsSpace(v[i]) && v[i] != '/'
    ensures ValueLength(v) == |v|
  {
    if v != [] {
      ValueLengthWhole(v[1..]);
    }
  }

  /** As for the mark regexes, no tag match straddles a whitespace boundary. */
  lemma {:induction false} ScanTagsAppend(a: string, b: string)
    requires b == [] || IsSpace(b[0])
    ensures ScanTags(a + b) ==
      Scan(ScanTags(a).found + ScanTags(b).found, ScanTags(a).rest + ScanTags(b).rest)
    decreases |a|
  {
    var B := ScanTags(b);
    if a == [] {
      assert a + b == b;
    } else if TagMatch(a).Some? {
      var hit := TagMatch(a).value;
      TaggedAppend(a, b, hit);
      ScanTagsAppend(a[hit.len..], b);
      ScanTagsHit(a, hit);
      ScanTagsHit(a + b, hit);
      var T := ScanTags(a[hit.len..]);
      ConcatAssoc([(hit.key, hit.value)], T.found, B.found);
    } else {
      UntaggedAppend(a, b);
      ScanTagsAppend(a[1..], b);
      ScanTagsMiss(a);
      ScanTagsMiss(a + b);
      var T := ScanTags(a[1..]);
      ConcatAssoc([a[0]], T.rest, B.rest);
    }
  }

  lemma ScanTagsHit(s: string, hit: TagHit)
    requires s != [] && TagMatch(s) == Some(hit)
    ensures ScanTags(s) ==
      Scan([(hit.key, hit.value)] + ScanTags(s[hit.len..]).found, ScanTags(s[hit.len..]).rest)
  {
  }

  lemma ScanTagsMiss(s: string)
    requires s != [] && TagMatch(s).None?
    ensures ScanTags(s) == Scan(ScanTags(s[1..]).found, [s[0]] + ScanTags(s[1..]).rest)
  {
  }

  lemma TaggedAppend(a: string, b: string, hit: TagHit)
    requires b == [] || IsSpace(b[0])
    requires a != [] && TagMatch(a) == Some(hit)
    ensures TagMatch(a + b) == Some(hit)
    ensures hit.len <= |a| && (a + b)[hit.len..] == a[hit.len..] + b
  {
    TagMatchAppend(a, b);
  }

  lemma UntaggedAppend(a: string, b: string)
    requires b == [] || IsSpace(b[0])
    requires a != [] && TagMatch(a).None?
    ensures TagMatch(a + b).None?
    ensures (a + b)[1..] == a[1..] + b && (a + b)[0] == a[0]
  {
    TagMatchAppend(a, b);
  }

  /** One step of the scan: a match at the front, or the front character kept. */
  lemma ScanTagsUnfold(s: string)
    requires s != []
    ensures var m := TagMatch(s);
      var len := if m.Some? then m.value.len else 1;
      var tail := ScanTags(s[len..]);
      ScanTags(s) == if m.Some? then Scan([(m.value.key, m.value.value)] + tail.found, tail.rest)
                     else Scan(tail.found, [s[0]] + tail.rest)
  {
  }

  lemma TagMatchAppend(a: string, b: string)
    requires b == [] || IsSpace(b[0])
    requires a != []
    ensures TagMatch(a + b) == TagMatch(a)
  {
    var s := a + b;
    assert s[0] == a[0];
    if a[0] == ' ' {
      WordAfterSpace(a, b);
      var w := Word(a[1..]);
      assert Word(s[1..]) == w;
      match KeyEnd(w)
      case None =>
      case Some(k) =>
        ValueInside(a, b, k);
        var n := k + 2 + ValueLength(a[k + 2..]);
        assert TagMatch(a) == Some(TagHit(a[1..k + 1], a[k + 2..n], n));
        assert TagMatch(s) == Some(TagHit(s[1..k + 1], s[k + 2..n], n));
    }
  }

  lemma WordAfterSpace(a: string, b: string)
    requires b == [] || IsSpace(b[0])
    requires a != []
    ensures (a + b)[0] == a[0] && Word((a + b)[1..]) == Word(a[1..])
  {
    assert (a + b)[1..] == a[1..] + b;
    WordAppend(a[1..], b);
  }

  lemma ValueInside(a: string, b: string, k: nat)
    requires b == [] || IsSpace(b[0])
    requires a != [] && KeyEnd(Word(a[1..])) == Some(k)
    ensures k + 2 < |a|
    ensures ValueLength((a + b)[k + 2..]) == ValueLength(a[k + 2..])
    ensures var n := k + 2 + ValueLength(a[k + 2..]);
      (a + b)[1..k + 1] == a[1..k + 1] && (a + b)[k + 2..n] == a[k + 2..n]
  {
    assert KeyColon(Word(a[1..]), k);
    assert (a + b)[k + 2..] == a[k + 2..] + b;
    ValueLengthAppend(a[k + 2..], b);
  }

  /** Text without a tag match passes through unchanged. */
  lemma {:induction false} ScanTagsNone(s: string)
    requires NoTags(s)
    ensures ScanTags(s) == Scan([], s)
    decreases |s|
  {
    if s != [] {
      assert s[0..] == s;
      assert NoTags(s[1..]) by {
        forall i | 0 <= i < |s[1..]| ensures !TagAt(s[1..][i..]) {
          assert s[1..][i..] == s[i + 1..];
        }
      }
      ScanTagsNone(s[1..]);
    }
  }

  /** A tag value as rendered: non-empty, and no whitespace, slash or colon in it. */
  predicate IsPlainValue(v: string)
  {
    IsTagValue(v) && ':' !in v
  }

  /** `key:value` rendered with the space before it is read back as that one pair. */
  lemma ScanTagsPair(key: string, value: string, tail: string)
    requires key != [] && HasNoSpace(key) && IsPlainValue(value)
    requires tail == [] || IsSpace(tail[0])
    ensures ScanTags(" " + (key + ":" + value) + tail) ==
      Scan([(key, value)] + ScanTags(tail).found, ScanTags(tail).rest)
  {
    var s := " " + (key + ":" + value) + tail;
    PairMatch(key, value, tail);
    assert s[|key| + |value| + 2..] == tail;
  }

  lemma PairMatch(key: string, value: string, tail: string)
    requires key != [] && HasNoSpace(key) && IsPlainValue(value)
    requires tail == [] || IsSpace(tail[0])
    ensures TagMatch(" " + (key + ":" + value) + tail) == Some(TagHit(key, value, |key| + |value| + 2))
  {
    var s := " " + (key + ":" + value) + tail;
    var n := |key| + |value| + 2;
    assert Word(s[1..]) == key + ":" + value by { PairWord(key, value, tail); }
    assert KeyEnd(key + ":" + value) == Some(|key|) by { KeyEndOfPair(key, value); }
    assert ValueLength(s[|key| + 2..]) == |value| by { PairValue(key, value, tail); }
    assert s[1..|key| + 1] == key && s[|key| + 2..n] == value;
    PairHit(s, key, value);
  }

  /** The match of a line whose key and value have been located. */
  lemma PairHit(s: string, key: string, value: string)
    requires |s| >= 1 && s[0] == ' ' && KeyEnd(Word(s[1..])) == Some(|key|)
    requires |key| + 2 + |value| <= |s| && ValueLength(s[|key| + 2..]) == |value|
    requires s[1..|key| + 1] == key && s[|key| + 2..|key| + 2 + |value|] == value
    ensures TagMatch(s) == Some(TagHit(key, value, |key| + |value| + 2))
  {
    TagMatchAt(s, |key|);
  }

  /** The match when the key of the word after the space ends at `k`. */
  lemma TagMatchAt(s: string, k: nat)
    requires |s| >= 1 && s[0] == ' ' && KeyEnd(Word(s[1..])) == Some(k)
    ensures k + 2 <= |s|
    ensures var n := k + 2 + ValueLength(s[k + 2..]);
      n <= |s| && TagMatch(s) == Some(TagHit(s[1..k + 1], s[k + 2..n], n))
  {
  }

  lemma PairWord(key: string, value: string, tail: string)
    requires HasNoSpace(key) && IsTagValue(value)
    requires tail == [] || IsSpace(tail[0])
    ensures Word((" " + (key + ":" + value) + tail)[1..]) == key + ":" + value
  {
    var w := key + ":" + value;
    PairNoSpace(key, value);
    assert (" " + w + tail)[1..] == w + tail;
    WordAppend(w, tail);
    RunLengthWhole(w);
  }

  lemma PairValue(key: string, value: string, tail: string)
    requires IsTagValue(value)
    requires tail == [] || IsSpace(tail[0])
    ensures ValueLength((" " + (key + ":" + value) + tail)[|key| + 2..]) == |value|
  {
    assert (" " + (key + ":" + value) + tail)[|key| + 2..] == value + tail;
    ValueLengthAppend(value, tail);
    ValueLengthWhole(value);
  }

  lemma PairNoSpace(key: string, value: string)
    requires HasNoSpace(key) && IsTagValue(value)
    ensures HasNoSpace(key + ":" + value)
  {
    var w := key + ":" + value;
    forall i | 0 <= i < |w| ensures !IsSpace(w[i]) {
      if i > |key| { assert w[i] == value[i - |key| - 1]; }
    }
  }

  /** The key ends at the colon that the rendering put there, since the value holds no colon. */
  lemma KeyEndOfPair(key: string, value: string)
    requires key != [] && IsPlainValue(value)
    ensures KeyEnd(key + ":" + value) == Some(|key|)
  {
    PairColons(key, value);
    KeyEndLast(key + ":" + value, |key|);
  }

  lemma PairColons(key: string, value: string)
    requires key != [] && IsPlainValue(value)
    ensures KeyColon(key + ":" + value, |key|)
    ensures forall j :: |key| < j < |key + ":" + value| ==> (key + ":" + value)[j] != ':'
  {
    var w := key + ":" + value;
    assert w[|key|] == ':' && w[|key| + 1] == value[0];
    forall j | |key| < j < |w| ensures w[j] != ':' {
      assert w[j] == value[j - |key| - 1];
    }
  }

  /** A colon that can end the key, with no colon after it, is where the key ends. */
  lemma KeyEndLast(w: string, n: nat)
    requires KeyColon(w, n)
    requires forall j :: n < j < |w| ==> w[j] != ':'
    ensures KeyEnd(w) == Some(n)
  {
    KeyEndMax(w, n);
    var k := KeyEnd(w).value;
    assert KeyColon(w, k);
  }

  /** A pair `__str__` renders so that the tag regex reads it back. */
  predicate PlainTag(t: (string, string))
  {
    t.0 != [] && HasNoSpace(t.0) && IsPlainValue(t.1)
  }

  /** The `key:value` words of the pairs, in order. */
  function PairWords(tags: seq<(string, string)>): seq<string>
  {
    seq(|tags|, i requires 0 <= i < |tags| => tags[i].0 + ":" + tags[i].1)
  }

  /** Rendered tags, each `key:value` with a space before it, are all found and all cut out. */
  lemma {:induction false} ScanTagsPairs(tags: seq<(string, string)>)
    requires forall i :: 0 <= i < |tags| ==> PlainTag(tags[i])
    ensures ScanTags(Spaced(PairWords(tags))) == Scan(tags, [])
  {
    if tags != [] {
      var tail := Spaced(PairWords(tags[1..]));
      SpacedPairWords(tags);
      ScanTagsPairs(tags[1..]);
      ScanTagsCons(Spaced(PairWords(tags)), tags[0].0, tags[0].1, tail, tags[1..]);
      assert [tags[0]] + tags[1..] == tags;
    }
  }

  /** The rendered tags are the first pair, with a space before it, then the rest. */
  lemma SpacedPairWords(tags: seq<(string, string)>)
    requires tags != []
    ensures var tail := Spaced(PairWords(tags[1..]));
      Spaced(PairWords(tags)) == " " + (tags[0].0 + ":" + tags[0].1) + tail &&
      (tail == [] || IsSpace(tail[0]))
  {
    assert PairWords(tags)[1..] == PairWords(tags[1..]);
  }

  /** One rendered pair in front of text whose scan is known. */
  lemma ScanTagsCons(line: string, key: string, value: string, tail: string, rest: seq<(string, string)>)
    requires line == " " + (key + ":" + value) + tail
    requires key != [] && HasNoSpace(key) && IsPlainValue(value)
    requires (tail == [] || IsSpace(tail[0])) && ScanTags(tail) == Scan(rest, [])
    ensures ScanTags(line) == Scan([(key, value)] + rest, [])
  {
    ScanTagsPair(key, value, tail);
  }

  // ---------------------------------------------------------------------
  // The token stages on rendered text
  // ---------------------------------------------------------------------

  lemma MarkedWordsSolid(mark: char, names: seq<string>)
    requires !IsSpace(mark)
    requires forall i :: 0 <= i < |names| ==> PlainName(names[i])
    ensures Solid(MarkedWords(mark, names))
    ensures forall i :: 0 <= i < |names| ==> MarkedWords(mark, names)[i][0] == mark
  {
    forall i | 0 <= i < |names| ensures HasNoSpace(MarkedWords(mark, names)[i]) {
      var w := MarkedWords(mark, names)[i];
      forall j | 0 <= j < |w| ensures !IsSpace(w[j]) {
        if j > 0 { assert w[j] == names[i][j - 1]; }
      }
    }
  }

  lemma PairWordsSolid(tags: seq<(string, string)>)
    requires forall i :: 0 <= i < |tags| ==> PlainTag(tags[i])
    ensures Solid(PairWords(tags))
    ensures forall i :: 0 <= i < |tags| ==> tags[i].0 != [] && PairWords(tags)[i][0] == tags[i].0[0]
  {
    forall i | 0 <= i < |tags| ensures HasNoSpace(PairWords(tags)[i]) {
      PairNoSpace(tags[i].0, tags[i].1);
    }
  }

  /**
    One mark stage on text without matches, followed by the marked names and
    then by words that do not start with the mark: the names are found, and
    cutting them leaves the text and the other words.
   */
  lemma ScanMarkedTail(text: string, names: seq<string>, others: seq<string>, mark: char)
    requires !IsSpace(mark) && NoMarked(text, mark)
    requires forall i :: 0 <= i < |names| ==> PlainName(names[i])
    requires Solid(others) && forall i :: 0 <= i < |others| ==> others[i][0] != mark
    ensures ScanMarked(text + Spaced(MarkedWords(mark, names)) + Spaced(others), mark) ==
      Scan(names, text + Spaced(others))
  {
    var W := Spaced(MarkedWords(mark, names));
    var O := Spaced(others);
    ScanMarkedWords(names, others, mark);
    ScanMarkedAppend(text, W + O, mark);
    ScanMarkedNone(text, mark);
    assert [] + names == names;
    ConcatAssoc(text, W, O);
  }

  /** The marked words followed by the other words: the names are found, the other words stay. */
  lemma ScanMarkedWords(names: seq<string>, others: seq<string>, mark: char)
    requires !IsSpace(mark)
    requires forall i :: 0 <= i < |names| ==> PlainName(names[i])
    requires Solid(others) && forall i :: 0 <= i < |others| ==> others[i][0] != mark
    ensures var W := Spaced(MarkedWords(mark, names));
      (W + Spaced(others) == [] || IsSpace((W + Spaced(others))[0])) &&
      ScanMarked(W + Spaced(others), mark) == Scan(names, Spaced(others))
  {
    var W := Spaced(MarkedWords(mark, names));
    var O := Spaced(others);
    assert W == [] || W[0] == ' ' by {
      MarkedWordsSolid(mark, names);
      SpacedShape(MarkedWords(mark, names));
    }
    assert O == [] || O[0] == ' ' by {
      SpacedShape(others);
    }
    ScanMarkedAppend(W, O, mark);
    ScanMarkedNames(names, mark);
    ScanMarkedOtherWords(others, mark);
    assert names + [] == names && [] + O == O;
  }

  /** The tag stage on text without matches followed by the rendered pairs finds exactly those pairs. */
  lemma ScanTagsTail(text: string, tags: seq<(string, string)>)
    requires NoTags(text)
    requires forall i :: 0 <= i < |tags| ==> PlainTag(tags[i])
    ensures ScanTags(text + Spaced(PairWords(tags))) == Scan(tags, text)
  {
    PairWordsSolid(tags);
    SpacedShape(PairWords(tags));
    ScanTagsAppend(text, Spaced(PairWords(tags)));
    ScanTagsNone(text);
    ScanTagsPairs(tags);
    assert [] + tags == tags && text + [] == text;
  }
}
