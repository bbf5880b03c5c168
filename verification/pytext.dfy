/**
 * The pieces of Python's `str` the report pipeline relies on: `isspace()`,
 * `strip()`, `split('\n')` and the argument-less `split()`.
 */
module PyText {

  /** Python's `str.isspace()`: the whitespace set shared by `strip()`, `split()` and the regex class `\s`. */
  predicate IsSpace(c: char) {
    || c == ' '
    || '\t' <= c <= '\r'
    || '\U{1c}' <= c <= '\U{1f}'
    || c == '\U{85}' || c == '\U{a0}' || c == '\U{1680}'
    || '\U{2000}' <= c <= '\U{200a}'
    || c == '\U{2028}' || c == '\U{2029}' || c == '\U{202f}' || c == '\U{205f}' || c == '\U{3000}'
  }

  predicate AllSpace(s: string) {
    forall i :: 0 <= i < |s| ==> IsSpace(s[i])
  }

  predicate NoSpace(s: string) {
    forall i :: 0 <= i < |s| ==> !IsSpace(s[i])
  }

  /** True when `s` is empty or neither begins nor ends with whitespace. */
  predicate Trimmed(s: string) {
    s == [] || (!IsSpace(s[0]) && !IsSpace(s[|s| - 1]))
  }

  /** Every character of `s[lo..hi]` is whitespace. */
  predicate Blank(s: string, lo: int, hi: int)
    requires 0 <= lo <= hi <= |s|
  {
    forall i :: lo <= i < hi ==> IsSpace(s[i])
  }

  /** Every character of `s[lo..hi]` is non-whitespace. */
  predicate Solid(s: string, lo: int, hi: int)
    requires 0 <= lo <= hi <= |s|
  {
    forall i :: lo <= i < hi ==> !IsSpace(s[i])
  }

  /** The first index at or after `i` that holds no whitespace (`|s|` if there is none). */
  function SkipBlanks(s: string, i: nat): (j: nat)
    requires i <= |s|
    ensures i <= j <= |s| && Blank(s, i, j)
    ensures j == |s| || !IsSpace(s[j])
    decreases |s| - i
  {
    if i < |s| && IsSpace(s[i]) then SkipBlanks(s, i + 1) else i
  }

  /** The end of the trailing whitespace run of `s[lo..hi]`, scanning backwards from `hi`. */
  function BackBlanks(s: string, lo: nat, hi: nat): (j: nat)
    requires lo <= hi <= |s|
    ensures lo <= j <= hi && Blank(s, j, hi)
    ensures j == lo || !IsSpace(s[j - 1])
    decreases hi - lo
  {
    if lo < hi && IsSpace(s[hi - 1]) then BackBlanks(s, lo, hi - 1) else hi
  }

  /** The first index at or after `i` that holds whitespace (`|s|` if there is none). */
  function SkipSolid(s: string, i: nat): (j: nat)
    requires i <= |s|
    ensures i <= j <= |s| && Solid(s, i, j)
    ensures j == |s| || IsSpace(s[j])
    decreases |s| - i
  {
    if i < |s| && !IsSpace(s[i]) then SkipSolid(s, i + 1) else i
  }

  /** `s.strip()`: the slice of `s` left after removing whitespace at both ends. */
  function Strip(s: string): (r: string)
    ensures Trimmed(r)
    ensures exists a :: 0 <= a <= a + |r| <= |s| && s[a..a + |r|] == r && Blank(s, 0, a) && Blank(s, a + |r|, |s|)
  {
    var a := SkipBlanks(s, 0);
    var b := BackBlanks(s, a, |s|);
    assert a < b ==> s[a..b][0] == s[a] && s[a..b][b - a - 1] == s[b - 1];
    s[a..b]
  }

  /** `Strip` is the only way to peel whitespace off both ends of `s`: any split into blank, trimmed, blank gives it. */
  lemma StripUnique(p: string, m: string, q: string)
    requires AllSpace(p) && AllSpace(q) && Trimmed(m)
    ensures Strip(p + m + q) == m
  {
    var s := p + m + q;
    var a := SkipBlanks(s, 0);
    var b := BackBlanks(s, a, |s|);
    if m == [] {
      assert Blank(s, 0, |s|);
      assert a == |s|;
    } else {
      assert s[|p|] == m[0];
      assert a == |p|;
      assert s[|p| + |m| - 1] == m[|m| - 1];
      assert b == |p| + |m|;
      assert s[a..b] == m;
    }
  }

  /** `Strip` of a string that already has non-blank ends changes nothing. */
  lemma StripTrimmed(s: string)
    requires Trimmed(s)
    ensures Strip(s) == s
  {
    StripUnique([], s, []);
    assert [] + s + [] == s;
  }

  /** Index of the first occurrence of `c` in `s`. */
  function IndexOf(s: string, c: char): (i: nat)
    requires c in s
    ensures i < |s| && s[i] == c && c !in s[..i]
  {
    if s[0] == c then 0
    else
      var k := IndexOf(s[1..], c);
      assert s[..k + 1] == [s[0]] + s[1..][..k];
      k + 1
  }

  /** Python's `sep.join(parts)` for a one-character separator. */
  function Join(parts: seq<string>, sep: char): string
    requires |parts| >= 1
    decreases |parts|
  {
    if |parts| == 1 then parts[0] else parts[0] + [sep] + Join(parts[1..], sep)
  }

  /** Python's `s.split(sep)` for a one-character separator: never empty, and `Join` undoes it. */
  function Split(s: string, sep: char): (parts: seq<string>)
    ensures |parts| >= 1
    ensures forall i :: 0 <= i < |parts| ==> sep !in parts[i]
    ensures Join(parts, sep) == s
    decreases |s|
  {
    if sep in s then
      var i := IndexOf(s, sep);
      var rest := Split(s[i + 1..], sep);
      var parts := [s[..i]] + rest;
      assert parts[1..] == rest;
      assert s == s[..i] + [sep] + s[i + 1..];
      parts
    else
      [s]
  }

  /** A join starts with the first part's first character and ends with the last part's last character. */
  lemma JoinEnds(parts: seq<string>, sep: char)
    requires |parts| >= 1 && parts[0] != [] && parts[|parts| - 1] != []
    ensures var s := Join(parts, sep); s != [] && s[0] == parts[0][0] && s[|s| - 1] == parts[|parts| - 1][|parts[|parts| - 1]| - 1]
  {
    JoinEndsLast(parts, sep);
  }

  /** A join ends with the last part's last character. */
  lemma {:induction false} JoinEndsLast(parts: seq<string>, sep: char)
    requires |parts| >= 1 && parts[|parts| - 1] != []
    ensures var s := Join(parts, sep); s != [] && s[|s| - 1] == parts[|parts| - 1][|parts[|parts| - 1]| - 1]
    decreases |parts|
  {
    if |parts| > 1 {
      var rest := parts[1..];
      assert rest[|rest| - 1] == parts[|parts| - 1];
      JoinEndsLast(rest, sep);
    }
  }

  /** `Split` undoes `Join` when no part contains the separator. */
  lemma {:induction false} SplitJoin(parts: seq<string>, sep: char)
    requires |parts| >= 1
    requires forall i :: 0 <= i < |parts| ==> sep !in parts[i]
    ensures Split(Join(parts, sep), sep) == parts
    decreases |parts|
  {
    if |parts| == 1 {
      assert sep !in parts[0];
    } else {
      var s := Join(parts, sep);
      var p0 := parts[0];
      var rest := Join(parts[1..], sep);
      assert s == p0 + [sep] + rest;
      assert sep in s by { assert s[|p0|] == sep; }
      var i := IndexOf(s, sep);
      assert i == |p0|;
      assert s[..i] == p0;
      assert s[i + 1..] == rest;
      SplitJoin(parts[1..], sep);
      assert [p0] + parts[1..] == parts;
    }
  }

  /**
   * Python's argument-less `s.split()`: the maximal runs of non-whitespace, in order. Leading
   * whitespace is dropped one character at a time; a word runs up to the next whitespace or the end.
   */
  function Words(s: string): (ws: seq<string>)
    ensures forall k :: 0 <= k < |ws| ==> IsWord(ws[k])
    decreases |s|
  {
    if s == [] then []
    else if IsSpace(s[0]) then Words(s[1..])
    else
      var e := SkipSolid(s, 0);
      [s[..e]] + Words(s[e..])
  }

  predicate IsWord(w: string) {
    w != [] && NoSpace(w)
  }

  /** Python's `' '.join(ws)`. */
  function JoinWords(ws: seq<string>): string
    decreases |ws|
  {
    if |ws| == 0 then ""
    else if |ws| == 1 then ws[0]
    else ws[0] + " " + JoinWords(ws[1..])
  }

  /** A run of whitespace followed by a non-blank character or the end is skipped in one go. */
  lemma {:induction false} SkipBlanksRun(s: string, i: nat, e: nat)
    requires i <= e <= |s| && Blank(s, i, e) && (e == |s| || !IsSpace(s[e]))
    ensures SkipBlanks(s, i) == e
    decreases e - i
  {
    if i < e {
      SkipBlanksRun(s, i + 1, e);
    }
  }

  /** A run of solid characters followed by whitespace or the end is skipped in one go. */
  lemma {:induction false} SkipSolidRun(s: string, i: nat, e: nat)
    requires i <= e <= |s| && Solid(s, i, e) && (e == |s| || IsSpace(s[e]))
    ensures SkipSolid(s, i) == e
    decreases e - i
  {
    if i < e {
      SkipSolidRun(s, i + 1, e);
    }
  }

  lemma TailWords(ws: seq<string>)
    requires ws != [] && forall m :: 0 <= m < |ws| ==> IsWord(ws[m])
    ensures forall m :: 0 <= m < |ws[1..]| ==> IsWord(ws[1..][m])
  {
    forall m | 0 <= m < |ws[1..]|
      ensures IsWord(ws[1..][m])
    {
      assert ws[1..][m] == ws[m + 1];
    }
  }

  /** A single word splits to itself. */
  lemma WordsOfWord(w: string)
    requires IsWord(w)
    ensures Words(w) == [w]
  {
    SkipSolidRun(w, 0, |w|);
    assert w[..|w|] == w;
    assert w[|w|..] == [];
  }

  /** `Words` undoes `JoinWords` on non-empty, blank-free words. */
  lemma {:induction false} WordsJoinWords(ws: seq<string>)
    requires forall i :: 0 <= i < |ws| ==> IsWord(ws[i])
    ensures Words(JoinWords(ws)) == ws
    decreases |ws|
  {
    if |ws| == 1 {
      WordsOfWord(ws[0]);
    } else if |ws| > 1 {
      var w, t := ws[0], JoinWords(ws[1..]);
      assert IsWord(w) && IsWord(ws[1]);
      TailWords(ws);
      WordsJoinWords(ws[1..]);
      WordsAfterWord(w, t);
      assert ws == [w] + ws[1..];
    }
  }

  /** A word, one space, then more text: the word comes first, then the text's words. */
  lemma WordsAfterWord(w: string, t: string)
    requires IsWord(w)
    ensures Words(w + " " + t) == [w] + Words(t)
  {
    assert IsSpace(" "[0]);
    WordsAfterGap(w, " ", t);
  }

  /** Whitespace in front of a text adds no words, however long the run. */
  lemma {:induction false} WordsSkipSpace(sp: string, t: string)
    requires AllSpace(sp)
    ensures Words(sp + t) == Words(t)
    decreases |sp|
  {
    if sp == [] {
      assert sp + t == t;
    } else {
      var s := sp + t;
      assert s[0] == sp[0];
      assert s[1..] == sp[1..] + t;
      assert AllSpace(sp[1..]) by {
        forall m | 0 <= m < |sp[1..]|
          ensures IsSpace(sp[1..][m])
        {
          assert sp[1..][m] == sp[m + 1];
        }
      }
      WordsSkipSpace(sp[1..], t);
    }
  }

  /** A word, a non-empty run of whitespace, then more text: the word comes first, then the text's words. */
  lemma WordsAfterGap(w: string, gap: string, t: string)
    requires IsWord(w) && gap != [] && AllSpace(gap)
    ensures Words(w + gap + t) == [w] + Words(t)
  {
    var s := w + gap + t;
    assert Solid(s, 0, |w|) by {
      forall m | 0 <= m < |w|
        ensures !IsSpace(s[m])
      {
        assert s[m] == w[m];
      }
    }
    assert s[|w|] == gap[0];
    SkipSolidRun(s, 0, |w|);
    assert s[0] == w[0];
    assert s[..|w|] == w;
    assert s[|w|..] == gap + t;
    WordsSkipSpace(gap, t);
  }

  /** Whitespace after a text adds no words. */
  lemma {:induction false} WordsTrailingSpace(s: string, sp: string)
    requires AllSpace(sp)
    ensures Words(s + sp) == Words(s)
    decreases |s|
  {
    var x := s + sp;
    if s == [] {
      WordsSkipSpace(sp, []);
      assert sp + [] == sp && x == sp;
    } else if IsSpace(s[0]) {
      assert x[0] == s[0];
      assert x[1..] == s[1..] + sp;
      WordsTrailingSpace(s[1..], sp);
    } else {
      var e := SkipSolid(s, 0);
      assert Solid(x, 0, e) by {
        forall m | 0 <= m < e
          ensures !IsSpace(x[m])
        {
          assert x[m] == s[m];
        }
      }
      if e < |s| {
        assert x[e] == s[e];
      } else if sp != [] {
        assert x[e] == sp[0];
      }
      SkipSolidRun(x, 0, e);
      assert x[0] == s[0];
      assert x[..e] == s[..e];
      assert x[e..] == s[e..] + sp;
      WordsTrailingSpace(s[e..], sp);
    }
  }

  /** `s.strip().split()` and `s.split()` agree: stripping first changes no word. */
  lemma WordsOfStrip(s: string)
    ensures Words(Strip(s)) == Words(s)
  {
    var a := SkipBlanks(s, 0);
    var b := BackBlanks(s, a, |s|);
    assert Strip(s) == s[a..b];
    WordsOfMiddle(s, a, b);
  }

  /** Cutting blank runs off both ends of a text changes no word. */
  lemma WordsOfMiddle(s: string, a: nat, b: nat)
    requires a <= b <= |s| && Blank(s, 0, a) && Blank(s, b, |s|)
    ensures Words(s[a..b]) == Words(s)
  {
    BlankSlice(s, 0, a);
    BlankSlice(s, b, |s|);
    CutThree(s, a, b);
    WordsSkipSpace(s[0..a], s[a..b] + s[b..|s|]);
    WordsTrailingSpace(s[a..b], s[b..|s|]);
  }

  lemma CutThree<T>(s: seq<T>, a: nat, b: nat)
    requires a <= b <= |s|
    ensures s == s[0..a] + (s[a..b] + s[b..|s|])
  {
    assert s[a..|s|] == s[a..b] + s[b..|s|];
  }

  lemma BlankSlice(s: string, lo: nat, hi: nat)
    requires lo <= hi <= |s| && Blank(s, lo, hi)
    ensures AllSpace(s[lo..hi])
  {
    forall m | 0 <= m < hi - lo
      ensures IsSpace(s[lo..hi][m])
    {
      assert s[lo..hi][m] == s[lo + m];
    }
  }

  /** Words laid out in columns: `ws[i]` followed by the whitespace `gaps[i]`. */
  function Spaced(ws: seq<string>, gaps: seq<string>): string
    requires |gaps| == |ws|
    decreases |ws|
  {
    if ws == [] then "" else ws[0] + gaps[0] + Spaced(ws[1..], gaps[1..])
  }

  /** Each gap is whitespace, and every gap but the last (the line's padding) is non-empty. */
  predicate Separating(gaps: seq<string>) {
    forall i :: 0 <= i < |gaps| ==> AllSpace(gaps[i]) && (i < |gaps| - 1 ==> gaps[i] != [])
  }

  /** `split()` recovers the words of a column layout, whatever whitespace pads or separates them. */
  lemma WordsOfSpaced(lead: string, ws: seq<string>, gaps: seq<string>)
    requires AllSpace(lead) && |gaps| == |ws| && Separating(gaps)
    requires forall i :: 0 <= i < |ws| ==> IsWord(ws[i])
    ensures Words(lead + Spaced(ws, gaps)) == ws
  {
    WordsSkipSpace(lead, Spaced(ws, gaps));
    WordsSpaced(ws, gaps);
  }

  lemma {:induction false} WordsSpaced(ws: seq<string>, gaps: seq<string>)
    requires |gaps| == |ws| && Separating(gaps)
    requires forall i :: 0 <= i < |ws| ==> IsWord(ws[i])
    ensures Words(Spaced(ws, gaps)) == ws
    decreases |ws|
  {
    if ws != [] {
      var w, g, rest := ws[0], gaps[0], Spaced(ws[1..], gaps[1..]);
      assert IsWord(w) && AllSpace(g);
      if |ws| == 1 {
        assert rest == [] && w + g + rest == w + g;
        WordsTrailingSpace(w, g);
        WordsOfWord(w);
      } else {
        assert g != [];
        assert Separating(gaps[1..]) by {
          forall i | 0 <= i < |gaps[1..]|
            ensures AllSpace(gaps[1..][i]) && (i < |gaps[1..]| - 1 ==> gaps[1..][i] != [])
          {
            assert gaps[1..][i] == gaps[i + 1];
          }
        }
        TailWords(ws);
        WordsSpaced(ws[1..], gaps[1..]);
        WordsAfterGap(w, g, rest);
        assert ws == [w] + ws[1..];
      }
    }
  }

  /** Text appended to a join lands on its last part. */
  lemma {:induction false} JoinAppend(parts: seq<string>, sep: char, x: string)
    requires |parts| >= 1
    ensures Join(parts, sep) + x == Join(parts[..|parts| - 1] + [parts[|parts| - 1] + x], sep)
    decreases |parts|
  {
    var u := parts[..|parts| - 1] + [parts[|parts| - 1] + x];
    if |parts| > 1 {
      var rest := parts[1..];
      JoinAppend(rest, sep, x);
      assert u[0] == parts[0];
      assert u[1..] == rest[..|rest| - 1] + [rest[|rest| - 1] + x];
    }
  }

  /** Two word texts written one straight after the other fuse the last word of the first with the first word of the second. */
  lemma {:induction false} JoinWordsGlue(ws: seq<string>, vs: seq<string>)
    requires |ws| >= 1 && |vs| >= 1
    ensures JoinWords(ws) + JoinWords(vs) == JoinWords(ws[..|ws| - 1] + [ws[|ws| - 1] + vs[0]] + vs[1..])
    decreases |ws|
  {
    var u := ws[..|ws| - 1] + [ws[|ws| - 1] + vs[0]] + vs[1..];
    if |ws| == 1 {
      assert u == [ws[0] + vs[0]] + vs[1..];
      if |vs| > 1 {
        assert u[1..] == vs[1..];
      }
    } else {
      var rest := ws[1..];
      JoinWordsGlue(rest, vs);
      assert u[0] == ws[0];
      assert u[1..] == rest[..|rest| - 1] + [rest[|rest| - 1] + vs[0]] + vs[1..];
    }
  }

  /** `split()` of two word texts written without a gap finds one word fewer than they hold together. */
  lemma WordsGlued(ws: seq<string>, vs: seq<string>)
    requires |ws| >= 1 && |vs| >= 1
    requires forall i :: 0 <= i < |ws| ==> IsWord(ws[i])
    requires forall i :: 0 <= i < |vs| ==> IsWord(vs[i])
    ensures |Words(JoinWords(ws) + JoinWords(vs))| == |ws| + |vs| - 1
  {
    var glued := ws[|ws| - 1] + vs[0];
    assert IsWord(ws[|ws| - 1]) && IsWord(vs[0]);
    assert IsWord(glued) by {
      forall m | 0 <= m < |glued|
        ensures !IsSpace(glued[m])
      {
        if m < |ws[|ws| - 1]| {
          assert glued[m] == ws[|ws| - 1][m];
        } else {
          assert glued[m] == vs[0][m - |ws[|ws| - 1]|];
        }
      }
    }
    var u := ws[..|ws| - 1] + [glued] + vs[1..];
    assert forall i :: 0 <= i < |u| ==> IsWord(u[i]) by {
      forall i | 0 <= i < |u|
        ensures IsWord(u[i])
      {
        if i < |ws| - 1 {
          assert u[i] == ws[i];
        } else if i >= |ws| {
          assert u[i] == vs[i - |ws| + 1];
        }
      }
    }
    JoinWordsGlue(ws, vs);
    WordsJoinWords(u);
  }

  /** A `JoinWords` of words begins and ends with non-whitespace, and its only whitespace is the single spaces between words. */
  lemma {:induction false} JoinWordsShape(ws: seq<string>)
    requires forall i :: 0 <= i < |ws| ==> IsWord(ws[i])
    ensures Trimmed(JoinWords(ws))
    ensures forall i :: 0 <= i < |JoinWords(ws)| ==> JoinWords(ws)[i] == ' ' || !IsSpace(JoinWords(ws)[i])
    decreases |ws|
  {
    if |ws| == 1 {
      assert IsWord(ws[0]);
    } else if |ws| >= 2 {
      JoinWordsShape(ws[1..]);
      var w := ws[0];
      var rest := JoinWords(ws[1..]);
      assert IsWord(w) && IsWord(ws[1]);
      var s := w + " " + rest;
      assert s[0] == w[0];
      assert s[|s| - 1] == rest[|rest| - 1];
      forall i | 0 <= i < |s|
        ensures s[i] == ' ' || !IsSpace(s[i])
      {
        if i < |w| {
          assert s[i] == w[i];
        } else if i > |w| {
          assert s[i] == rest[i - |w| - 1];
        }
      }
    }
  }
}
