/**
  What `from_string` (todotxtio.py:63-120) can and cannot read from a line,
  whatever the line: a lower-case letter in parentheses is never a priority
  and stays at the head of the text, and no tag value it reads holds a
  slash.
 */
module Reading {
  import opened Wrappers
  import opened Text
  import opened Dicts
  import opened Patterns
  import opened Todos
  import opened Codec

  /** A mark stage never cuts into a word without whitespace at the head of the text. */
  lemma {:induction false} ScanMarkedLead(s: string, w: string, mark: char)
    requires HasNoSpace(w) && w <= s
    ensures w <= ScanMarked(s, mark).rest
    decreases |s|
  {
    if w != [] {
      assert !IsSpace(s[0]);
      assert w[1..] <= s[1..];
      ScanMarkedLead(s[1..], w[1..], mark);
    }
  }

  /** The tag stage never cuts into a word without whitespace at the head of the text. */
  lemma {:induction false} ScanTagsLead(s: string, w: string)
    requires HasNoSpace(w) && w <= s
    ensures w <= ScanTags(s).rest
    decreases |s|
  {
    if w != [] {
      assert !IsSpace(s[0]);
      assert TagMatch(s).None?;
      assert w[1..] <= s[1..];
      ScanTagsLead(s[1..], w[1..]);
    }
  }

  /** `rstrip` keeps everything up to a character that is not whitespace. */
  lemma {:induction false} RStripKeeps(s: string, k: nat)
    requires 0 < k <= |s| && !IsSpace(s[k - 1])
    ensures |RStrip(s)| >= k
    decreases |s|
  {
    if IsSpace(s[|s| - 1]) {
      RStripKeeps(s[..|s| - 1], k);
    }
  }

  /** `strip` keeps a word without whitespace at the head of the text. */
  lemma StripLead(s: string, w: string)
    requires w != [] && HasNoSpace(w) && w <= s
    ensures w <= Strip(s)
  {
    assert LStrip(s) == s;
    RStripDrops(s);
    RStripKeeps(s, |w|);
  }

  /** One stage, whether or not it found something, keeps the head word. */
  lemma CutLead<T>(text: string, scan: Scan<T>, w: string)
    requires IsStripped(text) && w != [] && HasNoSpace(w) && w <= text && w <= scan.rest
    ensures w <= Cut(text, scan)
  {
    if scan.found != [] {
      StripLead(scan.rest, w);
    }
  }

  /** The three token stages keep a word without whitespace at the head of the text. */
  lemma ParseBodyLead(t0: string, w: string)
    requires IsStripped(t0) && w != [] && HasNoSpace(w) && w <= t0
    ensures w <= ParseBody(t0).text
  {
    var ps := ScanMarked(t0, '+');
    ScanMarkedLead(t0, w, '+');
    CutLead(t0, ps, w);
    var t1 := Cut(t0, ps);
    var cs := ScanMarked(t1, '@');
    ScanMarkedLead(t1, w, '@');
    CutLead(t1, cs, w);
    var t2 := Cut(t1, cs);
    var ts := ScanTags(t2);
    ScanTagsLead(t2, w);
    CutLead(t2, ts, w);
  }

  /**
    A line that starts with a lower-case letter in parentheses, such as
    `(z) text`: the prefix regex takes only `[A-Z]`, so nothing of the
    prefix is read, and `(z)` stays at the head of the text.
   */
  lemma LowercasePriority(line: string)
    requires |line| >= 3 && line[0] == '(' && 'a' <= line[1] <= 'z' && line[2] == ')'
    ensures ParseLine(line).priority == None
    ensures !ParseLine(line).completed && ParseLine(line).creationDate == None
    ensures line[..3] <= ParseLine(line).text
  {
    var w := line[..3];
    var s := Strip(line);
    assert w <= line;
    StripLead(line, w);
    assert !FieldAt(s) by {
      assert s[0] == '(' && s[1] == line[1];
      assert s[1..2] == [line[1]];
    }
    var q := Prefix(false, None, None, None);
    MatchPrefixText(q, s);
    assert PrefixText(q) + s == s;
    ParseBodyLead(s, w);
  }

  /** A key set by `PutAll` holds its old value or the value of one of the pairs. */
  lemma {:induction false} PutAllSource(d: Dict, pairs: seq<(string, string)>, k: string, v: string)
    requires UniqueKeys(d)
    requires Lookup(PutAll(d, pairs), k) == Some(v)
    ensures Lookup(d, k) == Some(v) || (k, v) in pairs
    decreases |pairs|
  {
    if pairs != [] {
      var d' := Put(d, pairs[0].0, pairs[0].1);
      var tail := pairs[1..];
      PutAllSource(d', tail, k, v);
      if Lookup(d', k) == Some(v) {
        if k == pairs[0].0 {
          assert pairs[0] == (k, v);
        } else {
          assert Lookup(d, k) == Lookup(d', k);
        }
      } else {
        var j :| 0 <= j < |tail| && tail[j] == (k, v);
        assert pairs[j + 1] == (k, v);
      }
    }
  }

  /**
    Every tag value `from_string` reads is non-empty and holds neither
    whitespace nor a slash, so a value such as `http://google.com/` is never
    read back whole.
   */
  lemma TagValues(line: string, k: string, v: string)
    requires Lookup(ParseLine(line).tags, k) == Some(v)
    ensures v != [] && HasNoSpace(v) && '/' !in v
  {
    var m := MatchPrefix(Strip(line));
    var t0 := Strip(m.1);
    var t1 := Cut(t0, ScanMarked(t0, '+'));
    var t2 := Cut(t1, ScanMarked(t1, '@'));
    ScanTagsFound(t2);
    var found := ParseBody(t0).tags;
    assert found == ScanTags(t2).found;
    PutAllSource([], found, k, v);
    var i :| 0 <= i < |found| && found[i] == (k, v);
    assert IsTagValue(found[i].1);
  }
}
