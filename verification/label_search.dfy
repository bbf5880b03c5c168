/**
 * The one regular-expression shape the report parser uses, `re.search(key + r'\s*(D+)', line).group(1)`,
 * where D is `\d` or `[\d.]`: the leftmost position where `key` occurs, followed by optional whitespace
 * and at least one character of D, captures the longest run of D characters there.
 */
module LabelSearch {
  import opened Wrappers
  import opened PyText

  /** The class of the captured group: `\d` or `[\d.]`. */
  datatype CharClass = Digits | DigitsOrDots

  predicate IsDigit(c: char) {
    '0' <= c <= '9'
  }

  predicate InClass(c: char, cls: CharClass) {
    match cls
    case Digits => IsDigit(c)
    case DigitsOrDots => IsDigit(c) || c == '.'
  }

  predicate AllInClass(s: string, cls: CharClass) {
    forall i :: 0 <= i < |s| ==> InClass(s[i], cls)
  }

  /** Neither class contains whitespace, so `\s*` and the group never compete for a character. */
  lemma ClassCharNotSpace(c: char, cls: CharClass)
    requires InClass(c, cls)
    ensures !IsSpace(c)
  {
  }

  /** `key` occurs in `s` starting at index `p`. */
  predicate OccursAt(s: string, p: nat, key: string) {
    p + |key| <= |s| && s[p..p + |key|] == key
  }

  /** The end of the run of class characters that starts at `i` (greedy `D+`). */
  function RunEnd(s: string, i: nat, cls: CharClass): (j: nat)
    requires i <= |s|
    ensures i <= j <= |s|
    ensures forall k :: i <= k < j ==> InClass(s[k], cls)
    ensures j == |s| || !InClass(s[j], cls)
    decreases |s| - i
  {
    if i < |s| && InClass(s[i], cls) then RunEnd(s, i + 1, cls) else i
  }

  /** The pattern `key\s*(D+)` matches with `key` starting at `p`. */
  predicate MatchesAt(s: string, p: nat, key: string, cls: CharClass) {
    && OccursAt(s, p, key)
    && var j := SkipBlanks(s, p + |key|);
       j < |s| && InClass(s[j], cls)
  }

  /** What group 1 captures for a match at `p`: the whole run of class characters after the blanks. */
  function Group(s: string, p: nat, key: string, cls: CharClass): (g: string)
    requires MatchesAt(s, p, key, cls)
    ensures g != [] && AllInClass(g, cls)
    // The group is the text right after the greedy `\s*`, and it runs as far as the class does.
    ensures var j := SkipBlanks(s, p + |key|);
      && j + |g| <= |s| && g == s[j..j + |g|]
      && Blank(s, p + |key|, j) && !IsSpace(s[j])
      && (j + |g| == |s| || !InClass(s[j + |g|], cls))
  {
    var j := SkipBlanks(s, p + |key|);
    var e := RunEnd(s, j, cls);
    assert forall k :: 0 <= k < e - j ==> s[j..e][k] == s[j + k];
    s[j..e]
  }

  /** The leftmost match position at or after `from`. */
  function FirstMatch(s: string, key: string, cls: CharClass, from: nat): (r: Option<nat>)
    requires from <= |s| + 1
    ensures r.Some? ==> from <= r.value && MatchesAt(s, r.value, key, cls)
    ensures forall q: nat :: from <= q && (r.None? || q < r.value) ==> !MatchesAt(s, q, key, cls)
    decreases |s| + 1 - from
  {
    if from > |s| then None
    else if MatchesAt(s, from, key, cls) then Some(from)
    else FirstMatch(s, key, cls, from + 1)
  }

  /** Some position at or after `from` is a match (the existential, unrolled along the string). */
  predicate MatchesFrom(s: string, key: string, cls: CharClass, from: nat)
    decreases |s| + 1 - from
  {
    from <= |s| && (MatchesAt(s, from, key, cls) || MatchesFrom(s, key, cls, from + 1))
  }

  /** The pattern matches somewhere in `s`. */
  predicate Found(s: string, key: string, cls: CharClass) {
    MatchesFrom(s, key, cls, 0)
  }

  lemma MatchesFromMeans(s: string, key: string, cls: CharClass, from: nat)
    ensures MatchesFrom(s, key, cls, from) <==> exists p: nat :: from <= p && MatchesAt(s, p, key, cls)
  {
    if MatchesFrom(s, key, cls, from) {
      MatchesFromHasWitness(s, key, cls, from);
    }
    if exists p: nat :: from <= p && MatchesAt(s, p, key, cls) {
      var p: nat :| from <= p && MatchesAt(s, p, key, cls);
      MatchReachesBack(s, key, cls, from, p);
    }
  }

  lemma {:induction false} MatchesFromHasWitness(s: string, key: string, cls: CharClass, from: nat)
    requires MatchesFrom(s, key, cls, from)
    ensures exists p: nat :: from <= p && MatchesAt(s, p, key, cls)
    decreases |s| + 1 - from
  {
    if !MatchesAt(s, from, key, cls) {
      MatchesFromHasWitness(s, key, cls, from + 1);
    }
  }

  lemma {:induction false} MatchReachesBack(s: string, key: string, cls: CharClass, from: nat, p: nat)
    requires from <= p && MatchesAt(s, p, key, cls)
    ensures MatchesFrom(s, key, cls, from)
    decreases p - from
  {
    if from < p {
      MatchReachesBack(s, key, cls, from + 1, p);
    }
  }

  /** `Found` is the plain existential: some position of `s` starts a match. */
  lemma FoundMeans(s: string, key: string, cls: CharClass)
    ensures Found(s, key, cls) <==> exists p: nat :: MatchesAt(s, p, key, cls)
  {
    MatchesFromMeans(s, key, cls, 0);
  }

  lemma {:induction false} FirstMatchFound(s: string, key: string, cls: CharClass, from: nat)
    requires from <= |s| + 1
    ensures FirstMatch(s, key, cls, from).Some? <==> MatchesFrom(s, key, cls, from)
    decreases |s| + 1 - from
  {
    if from <= |s| && !MatchesAt(s, from, key, cls) {
      FirstMatchFound(s, key, cls, from + 1);
    }
  }

  /** `re.search(key + r'\s*(D+)', s)`, giving group 1 of the leftmost match, or `None` when nothing matches. */
  function Search(s: string, key: string, cls: CharClass): (r: Option<string>)
    ensures r.Some? <==> Found(s, key, cls)
    ensures r.Some? ==> r.value != [] && AllInClass(r.value, cls)
  {
    FirstMatchFound(s, key, cls, 0);
    match FirstMatch(s, key, cls, 0)
    case None => None
    case Some(p) => Some(Group(s, p, key, cls))
  }

  /** What the search returns is the group of the leftmost match. */
  lemma SearchIsLeftmost(s: string, key: string, cls: CharClass)
    requires Search(s, key, cls).Some?
    ensures exists p: nat :: && MatchesAt(s, p, key, cls)
                             && (forall q: nat :: q < p ==> !MatchesAt(s, q, key, cls))
                             && Search(s, key, cls).value == Group(s, p, key, cls)
  {
    var p := FirstMatch(s, key, cls, 0).value;
    assert Search(s, key, cls).value == Group(s, p, key, cls);
  }

  /** No occurrence of `key` can begin inside `pre`, whatever text follows it. */
  ghost predicate NoStart(pre: string, key: string) {
    forall q :: 0 <= q < |pre| ==> Departs(pre, q, key)
  }

  /** Within `pre`, the text from `q` on disagrees with `key` somewhere. */
  ghost predicate Departs(pre: string, q: nat, key: string) {
    exists t :: 0 <= t < |key| && q + t < |pre| && pre[q + t] != key[t]
  }

  lemma NoStartWithoutHead(pre: string, key: string)
    requires |key| > 0 && key[0] !in pre
    ensures NoStart(pre, key)
  {
    forall q | 0 <= q < |pre|
      ensures Departs(pre, q, key)
    {
      assert pre[q + 0] != key[0];
    }
  }

  /** A segment that starts like `key` but parts from it at its second character. */
  lemma NoStartSecondDiffers(pre: string, key: string)
    requires |key| >= 2 && |pre| >= 2 && pre[1] != key[1] && key[0] !in pre[1..]
    ensures NoStart(pre, key)
  {
    forall q | 0 <= q < |pre|
      ensures Departs(pre, q, key)
    {
      if q == 0 {
        assert pre[q + 1] != key[1];
      } else {
        assert pre[q] == pre[1..][q - 1];
        assert pre[q + 0] != key[0];
      }
    }
  }

  lemma NoStartAppend(a: string, b: string, key: string)
    requires NoStart(a, key) && NoStart(b, key)
    ensures NoStart(a + b, key)
  {
    var s := a + b;
    forall q | 0 <= q < |s|
      ensures Departs(s, q, key)
    {
      if q < |a| {
        assert Departs(a, q, key);
        var t :| 0 <= t < |key| && q + t < |a| && a[q + t] != key[t];
        assert s[q + t] == a[q + t];
      } else {
        assert Departs(b, q - |a|, key);
        var t :| 0 <= t < |key| && q - |a| + t < |b| && b[q - |a| + t] != key[t];
        assert s[q + t] == b[q - |a| + t];
      }
    }
  }

  /** No occurrence of `key` begins inside `pre`, whatever follows it. */
  lemma NoEarlyOccurrence(pre: string, rest: string, key: string, q: nat)
    requires NoStart(pre, key) && q < |pre|
    ensures !OccursAt(pre + rest, q, key)
  {
    var s := pre + rest;
    assert Departs(pre, q, key);
    var t :| 0 <= t < |key| && q + t < |pre| && pre[q + t] != key[t];
    assert s[q + t] == pre[q + t];
  }

  /** A run of class characters followed by the end or a non-class character is exactly what `RunEnd` spans. */
  lemma RunEndIsExact(s: string, v0: nat, e: nat, cls: CharClass)
    requires v0 <= e <= |s|
    requires forall k :: v0 <= k < e ==> InClass(s[k], cls)
    requires e == |s| || !InClass(s[e], cls)
    ensures RunEnd(s, v0, cls) == e
  {
  }

  /**
   * The search captures `s[v0..e]` when the leftmost occurrence of `key` is followed by a run of
   * whitespace up to `v0` (possibly none) and then by the maximal class run `s[v0..e]`.
   */
  lemma SearchFindsAt(s: string, p: nat, key: string, v0: nat, e: nat, cls: CharClass)
    requires OccursAt(s, p, key) && p + |key| <= v0 < e <= |s|
    requires Blank(s, p + |key|, v0)
    requires forall k :: v0 <= k < e ==> InClass(s[k], cls)
    requires e == |s| || !InClass(s[e], cls)
    requires forall q: nat :: q < p ==> !OccursAt(s, q, key)
    ensures Search(s, key, cls) == Some(s[v0..e])
  {
    ClassCharNotSpace(s[v0], cls);
    SkipBlanksRun(s, p + |key|, v0);
    assert MatchesAt(s, p, key, cls);
    FirstMatchIs(s, key, cls, p);
    RunEndIsExact(s, v0, e, cls);
    GroupSpans(s, p, key, cls, v0, e);
  }

  /** The group of a match is the text between the end of the blanks and the end of the class run. */
  lemma GroupSpans(s: string, p: nat, key: string, cls: CharClass, v0: nat, e: nat)
    requires MatchesAt(s, p, key, cls)
    requires SkipBlanks(s, p + |key|) == v0 && v0 <= e <= |s| && RunEnd(s, v0, cls) == e
    ensures Group(s, p, key, cls) == s[v0..e]
  {
  }

  /** A match with no occurrence of `key` before it is the leftmost match. */
  lemma FirstMatchIs(s: string, key: string, cls: CharClass, p: nat)
    requires MatchesAt(s, p, key, cls)
    requires forall q: nat :: q < p ==> !OccursAt(s, q, key)
    ensures FirstMatch(s, key, cls, 0) == Some(p)
  {
  }

  /**
   * The search finds a field laid out as `pre + key + gap + value + post` when `key` cannot start
   * inside `pre`, `gap` is whitespace of any length (`\s*`, so possibly empty) and `value` is a
   * maximal run of the class.
   */
  lemma SearchFindsAfterGap(pre: string, key: string, gap: string, value: string, post: string, cls: CharClass)
    requires |key| > 0 && NoStart(pre, key)
    requires AllSpace(gap)
    requires value != [] && AllInClass(value, cls)
    requires post == [] || !InClass(post[0], cls)
    ensures Search(pre + key + gap + value + post, key, cls) == Some(value)
  {
    var rest := key + gap + value + post;
    var s := pre + rest;
    assert s == pre + key + gap + value + post;
    var p := |pre|;
    var g0 := p + |key|;
    var v0 := g0 + |gap|;
    var e := v0 + |value|;
    assert forall i :: 0 <= i < |key| ==> s[p + i] == key[i];
    assert s[p..g0] == key;
    assert forall k :: g0 <= k < v0 ==> s[k] == gap[k - g0];
    assert s[v0..e] == value;
    assert forall k :: v0 <= k < e ==> s[k] == value[k - v0];
    assert e == |s| || s[e] == post[0];
    forall q: nat | q < p
      ensures !OccursAt(s, q, key)
    {
      NoEarlyOccurrence(pre, rest, key, q);
    }
    SearchFindsAt(s, p, key, v0, e, cls);
  }

  /** The layout the report renderer uses: exactly one space between label and value. */
  lemma SearchFinds(pre: string, key: string, value: string, post: string, cls: CharClass)
    requires |key| > 0 && NoStart(pre, key)
    requires value != [] && AllInClass(value, cls)
    requires post == [] || !InClass(post[0], cls)
    ensures Search(pre + key + " " + value + post, key, cls) == Some(value)
  {
    assert IsSpace(" "[0]);
    SearchFindsAfterGap(pre, key, " ", value, post, cls);
  }

  /** A key whose first character never appears in `s` is never found. */
  lemma AbsentHeadNotFound(s: string, key: string, cls: CharClass)
    requires |key| > 0 && key[0] !in s
    ensures Search(s, key, cls) == None
  {
    forall p: nat
      ensures !MatchesAt(s, p, key, cls)
    {
      if p + |key| <= |s| {
        assert s[p] in s;
        assert s[p..p + |key|][0] == s[p];
      }
    }
  }
}
