/**
  The pieces of Python's string library that todotxtio relies on:
  `str.strip`, `str.splitlines` and `str.join`, and the character
  classes `\s` and `\d` of its regular expressions.
 */
module Text {

  /**
    Whitespace as `str.strip` and the regex class `\s` see it, restricted
    to space, tab, line feed, vertical tab, form feed and carriage return.
   */
  predicate IsSpace(c: char)
  {
    c == ' ' || '\t' <= c <= '\r'
  }

  /** The characters at which `str.splitlines` ends a line, restricted as `IsSpace` is. */
  predicate IsLineBreak(c: char)
  {
    '\n' <= c <= '\r'
  }

  /** The regex class `\d`, restricted to the ASCII digits. */
  predicate IsDigit(c: char)
  {
    '0' <= c <= '9'
  }

  predicate AllSpace(s: string)
  {
    forall i :: 0 <= i < |s| ==> IsSpace(s[i])
  }

  predicate HasNoSpace(s: string)
  {
    forall i :: 0 <= i < |s| ==> !IsSpace(s[i])
  }

  /** True when `s` is already in stripped form: empty, or no whitespace at either end. */
  predicate IsStripped(s: string)
  {
    s == [] || (!IsSpace(s[0]) && !IsSpace(s[|s| - 1]))
  }

  /** `s.lstrip()`: drops the longest all-whitespace prefix (see `LStripDrops`). */
  function LStrip(s: string): (r: string)
    ensures |r| <= |s|
    ensures r == [] || !IsSpace(r[0])
    ensures r != [] ==> r[|r| - 1] == s[|s| - 1]
  {
    if s != [] && IsSpace(s[0]) then LStrip(s[1..]) else s
  }

  /** `s.rstrip()`: drops the longest all-whitespace suffix (see `RStripDrops`). */
  function RStrip(s: string): (r: string)
    ensures |r| <= |s|
    ensures r == [] || !IsSpace(r[|r| - 1])
    ensures r != [] ==> r[0] == s[0]
  {
    if s != [] && IsSpace(s[|s| - 1]) then RStrip(s[..|s| - 1]) else s
  }

  /** `lstrip` keeps a suffix and drops only whitespace. */
  lemma {:induction false} LStripDrops(s: string)
    ensures LStrip(s) == s[|s| - |LStrip(s)|..]
    ensures AllSpace(s[..|s| - |LStrip(s)|])
  {
    if s != [] && IsSpace(s[0]) {
      LStripDrops(s[1..]);
      assert s[..|s| - |LStrip(s)|] == [s[0]] + s[1..][..|s[1..]| - |LStrip(s[1..])|];
    }
  }

  /** `rstrip` keeps a prefix and drops only whitespace. */
  lemma {:induction false} RStripDrops(s: string)
    ensures RStrip(s) == s[..|RStrip(s)|]
    ensures AllSpace(s[|RStrip(s)|..])
  {
    if s != [] && IsSpace(s[|s| - 1]) {
      RStripDrops(s[..|s| - 1]);
      assert s[|RStrip(s)|..] == s[..|s| - 1][|RStrip(s[..|s| - 1])|..] + [s[|s| - 1]];
    }
  }

  /** `s.strip()`: an already stripped string is left as it is. */
  function Strip(s: string): (r: string)
    ensures IsStripped(r) && |r| <= |s|
    ensures IsStripped(s) ==> r == s
  {
    assert IsStripped(s) && s != [] ==> LStrip(s) == s;
    RStrip(LStrip(s))
  }

  /** `s.strip()` is empty exactly when `s` is all whitespace. */
  lemma StripEmpty(s: string)
    ensures Strip(s) == [] <==> AllSpace(s)
  {
    var l := LStrip(s);
    LStripDrops(s);
    RStripDrops(l);
    if Strip(s) == [] {
      assert l == [];
      assert s[..|s|] == s;
    }
  }

  /**
    Concatenation regrouped. Stated for any element type so that the proofs
    that use it do not unfold the functions that built `x`, `y` and `z`;
    the same equation asserted in place runs out of resource there.
   */
  lemma ConcatAssoc<T>(x: seq<T>, y: seq<T>, z: seq<T>)
    ensures x + (y + z) == (x + y) + z
  {
  }

  /** One more element of a prefix. */
  lemma TakeSnoc<T>(s: seq<T>, i: nat)
    requires i < |s|
    ensures s[..i + 1] == s[..i] + [s[i]]
  {
  }

  /** No element occurs twice. */
  predicate Distinct<T(==)>(s: seq<T>)
  {
    forall i, j :: 0 <= i < j < |s| ==> s[i] != s[j]
  }

  /** Appending an element not yet present keeps the elements distinct. */
  lemma DistinctSnoc<T>(s: seq<T>, x: T)
    requires Distinct(s) && x !in s
    ensures Distinct(s + [x])
  {
  }

  /** `sep.join(parts)`. */
  function Join(sep: string, parts: seq<string>): string
  {
    if |parts| == 0 then []
    else if |parts| == 1 then parts[0]
    else parts[0] + sep + Join(sep, parts[1..])
  }

  /** `''.join([' ' + w for w in words])`: every word with a space before it. */
  function Spaced(words: seq<string>): string
  {
    if words == [] then [] else " " + words[0] + Spaced(words[1..])
  }

  /** Every part followed by a space: what `' '.join` writes before its last part. */
  function Trailed(parts: seq<string>): string
  {
    if parts == [] then [] else parts[0] + " " + Trailed(parts[1..])
  }

  lemma {:induction false} TrailedAppend(a: seq<string>, b: seq<string>)
    ensures Trailed(a + b) == Trailed(a) + Trailed(b)
    decreases |a|
  {
    if a == [] {
      assert a + b == b;
    } else {
      assert (a + b)[1..] == a[1..] + b;
      TrailedAppend(a[1..], b);
    }
  }

  /** `' '.join(parts + [last])` is every part followed by a space, then `last`. */
  lemma {:induction false} JoinTrailed(parts: seq<string>, last: string)
    ensures Join(" ", parts + [last]) == Trailed(parts) + last
    decreases |parts|
  {
    if parts != [] {
      assert (parts + [last])[1..] == parts[1..] + [last];
      JoinTrailed(parts[1..], last);
    }
  }

  /** Appending a part to a non-empty join adds a space and the part. */
  lemma JoinSnoc(parts: seq<string>, x: string)
    requires parts != []
    ensures Join(" ", parts + [x]) == Join(" ", parts) + " " + x
  {
    var init := parts[..|parts| - 1];
    var last := parts[|parts| - 1];
    assert parts == init + [last];
    JoinTrailed(parts, x);
    JoinTrailed(init, last);
    TrailedAppend(init, [last]);
  }

  lemma {:induction false} SpacedAppend(a: seq<string>, b: seq<string>)
    ensures Spaced(a + b) == Spaced(a) + Spaced(b)
    decreases |a|
  {
    if a == [] {
      assert a + b == b;
    } else {
      assert (a + b)[1..] == a[1..] + b;
      SpacedAppend(a[1..], b);
    }
  }

  /** Words as the tokens of a line: non-empty and free of whitespace. */
  predicate Solid(words: seq<string>)
  {
    forall i :: 0 <= i < |words| ==> words[i] != [] && HasNoSpace(words[i])
  }

  /**
    Solid words with a space before each: empty exactly when there are no
    words, and otherwise a space followed by stripped text.
   */
  lemma {:induction false} SpacedShape(words: seq<string>)
    requires Solid(words)
    ensures Spaced(words) == [] <==> words == []
    ensures words != [] ==> Spaced(words)[0] == ' ' && |Spaced(words)| >= 2 && IsStripped(Spaced(words)[1..])
    decreases |words|
  {
    if words != [] {
      var w := words[0];
      var tail := Spaced(words[1..]);
      assert Spaced(words) == " " + w + tail;
      assert Solid(words[1..]) by {
        forall i | 0 <= i < |words[1..]| ensures words[1..][i] != [] && HasNoSpace(words[1..][i]) {
          assert words[1..][i] == words[i + 1];
        }
      }
      SpacedShape(words[1..]);
      var s := Spaced(words)[1..];
      assert s == w + tail;
      assert s[0] == w[0];
      if tail == [] {
        assert s[|s| - 1] == w[|w| - 1];
      } else {
        assert s[|s| - 1] == tail[|tail| - 1];
        assert tail[1..][|tail| - 2] == tail[|tail| - 1];
      }
    }
  }

  /** `''.join(' ' + w for w in words).strip()` drops just the first space. */
  lemma StripSpaced(words: seq<string>)
    requires Solid(words) && words != []
    ensures " " + Strip(Spaced(words)) == Spaced(words)
  {
    SpacedShape(words);
    var s := Spaced(words);
    assert s == [' '] + s[1..];
    assert LStrip(s) == LStrip(s[1..]);
    assert LStrip(s[1..]) == s[1..];
  }

  /** Stripped text followed by stripped text after one space is stripped. */
  lemma StrippedThen(a: string, b: string)
    requires IsStripped(a) && a != []
    requires b == [] || (b[0] == ' ' && |b| >= 2 && IsStripped(b[1..]))
    ensures IsStripped(a + b) && a + b != []
  {
    if b != [] {
      assert (a + b)[|a + b| - 1] == b[1..][|b| - 2];
    }
  }

  predicate HasNoBreak(s: string)
  {
    forall i :: 0 <= i < |s| ==> !IsLineBreak(s[i])
  }

  /** Length of the first line of `s`: the text before its first line break. */
  function LineLength(s: string): (n: nat)
    ensures n <= |s|
    ensures HasNoBreak(s[..n])
    ensures n == |s| || IsLineBreak(s[n])
  {
    if s == [] || IsLineBreak(s[0]) then 0
    else
      var n := 1 + LineLength(s[1..]);
      assert s[..n] == [s[0]] + s[1..][..n - 1];
      n
  }

  /** How many characters the line break at `s[n]` takes: `"\r\n"` counts as one break. */
  function BreakLength(s: string, n: nat): (k: nat)
    requires n < |s|
    ensures 1 <= k <= |s| - n
  {
    if s[n] == '\r' && n + 1 < |s| && s[n + 1] == '\n' then 2 else 1
  }

  /**
    `s.splitlines()`: the lines of `s` without their line breaks; a break
    at the very end does not open one more, empty, line. Only the empty
    string has no lines.
   */
  function SplitLines(s: string): (r: seq<string>)
    ensures r == [] <==> s == []
    decreases |s|
  {
    if s == [] then []
    else
      var n := LineLength(s);
      if n == |s| then
        assert s[..n] == s;
        [s]
      else
        [s[..n]] + SplitLines(s[n + BreakLength(s, n)..])
  }

  /** A non-empty break-free input is one line. */
  lemma SplitLinesShape(s: string)
    ensures HasNoBreak(s) && s != [] ==> SplitLines(s) == [s]
  {
    if s != [] && HasNoBreak(s) {
      assert LineLength(s) == |s|;
    }
  }

  /** No line `splitlines` gives holds a line break. */
  lemma {:induction false} SplitLinesNoBreak(s: string)
    ensures forall i :: 0 <= i < |SplitLines(s)| ==> HasNoBreak(SplitLines(s)[i])
    decreases |s|
  {
    if s != [] {
      var n := LineLength(s);
      if n < |s| {
        SplitLinesNoBreak(s[n + BreakLength(s, n)..]);
      }
    }
  }

  /** The first line of a line followed by `'\n'` is that line. */
  lemma {:induction false} LineLengthBefore(x: string, t: string)
    requires HasNoBreak(x)
    ensures LineLength(x + "\n" + t) == |x|
  {
    if x != [] {
      assert (x + "\n" + t)[1..] == x[1..] + "\n" + t;
      LineLengthBefore(x[1..], t);
    }
  }

  /** Lines that `splitlines` gives back after `'\n'.join`: none holds a break, and the last is not empty. */
  predicate Rejoinable(lines: seq<string>)
  {
    |lines| >= 1 && lines[|lines| - 1] != [] && forall i :: 0 <= i < |lines| ==> HasNoBreak(lines[i])
  }

  /**
    Joining break-free lines with `'\n'` and splitting them again gives the
    lines back, unless the last one is empty (its break would be a trailing one).
   */
  lemma {:induction false} SplitLinesJoin(lines: seq<string>)
    requires |lines| >= 1 && lines[|lines| - 1] != []
    requires forall i :: 0 <= i < |lines| ==> HasNoBreak(lines[i])
    ensures SplitLines(Join("\n", lines)) == lines
  {
    if |lines| > 1 {
      var x := lines[0];
      var t := Join("\n", lines[1..]);
      var s := x + "\n" + t;
      assert Join("\n", lines) == s;
      LineLengthBefore(x, t);
      assert s[..|x|] == x;
      assert s[|x| + 1..] == t;
      SplitLinesJoin(lines[1..]);
      assert [lines[0]] + lines[1..] == lines;
    }
  }

  /** Text made of break-free pieces is break-free. */
  lemma NoBreakAppend(a: string, b: string)
    requires HasNoBreak(a) && HasNoBreak(b)
    ensures HasNoBreak(a + b)
  {
    forall i | 0 <= i < |a + b| ensures !IsLineBreak((a + b)[i]) {
      if i >= |a| {
        assert (a + b)[i] == b[i - |a|];
      }
    }
  }

  /** Words without whitespace, each after a space, hold no line break. */
  lemma {:induction false} SpacedNoBreak(words: seq<string>)
    requires Solid(words)
    ensures HasNoBreak(Spaced(words))
    decreases |words|
  {
    if words != [] {
      assert Solid(words[1..]) by {
        forall i | 0 <= i < |words[1..]| ensures words[1..][i] != [] && HasNoSpace(words[1..][i]) {
          assert words[1..][i] == words[i + 1];
        }
      }
      SpacedNoBreak(words[1..]);
      NoBreakAppend(" " + words[0], Spaced(words[1..]));
    }
  }

  /** Joining non-empty parts starts with the first part's first character and ends with the last part's last. */
  lemma {:induction false} JoinEnds(sep: string, parts: seq<string>)
    requires |parts| >= 1 && forall i :: 0 <= i < |parts| ==> parts[i] != []
    ensures Join(sep, parts) != []
    ensures Join(sep, parts)[0] == parts[0][0]
    ensures Join(sep, parts)[|Join(sep, parts)| - 1] == parts[|parts| - 1][|parts[|parts| - 1]| - 1]
    decreases |parts|
  {
    if |parts| > 1 {
      JoinEnds(sep, parts[1..]);
      var t := Join(sep, parts[1..]);
      assert Join(sep, parts) == parts[0] + sep + t;
      assert (parts[0] + sep + t)[|parts[0] + sep + t| - 1] == t[|t| - 1];
    }
  }
}
