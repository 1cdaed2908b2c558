/** The last step of `normalize`: `re.sub(r"\s+", " ", text).strip()`. The regex
    and `str.strip` disagree on what whitespace is, so both classes are written out. */
module Whitespace {

  /** `\s` of the `regex` package on a str pattern: the Unicode White_Space property. */
  predicate IsRegexSpace(c: char) {
    || ('\t' <= c <= '\r')
    || c == ' '
    || c == '\U{0085}'
    || c == '\U{00A0}'
    || c == '\U{1680}'
    || ('\U{2000}' <= c <= '\U{200A}')
    || c == '\U{2028}'
    || c == '\U{2029}'
    || c == '\U{202F}'
    || c == '\U{205F}'
    || c == '\U{3000}'
  }

  /** `str.isspace`, which `str.strip()` trims: `\s` plus the information
      separators U+001C..U+001F. */
  predicate IsStripSpace(c: char) {
    IsRegexSpace(c) || ('\U{001C}' <= c <= '\U{001F}')
  }

  /** `s` with every `\s` character deleted: the content the collapse must keep. */
  function Squeeze(s: string): string
    decreases |s|
  {
    if |s| == 0 then ""
    else if IsRegexSpace(s[0]) then Squeeze(s[1..])
    else [s[0]] + Squeeze(s[1..])
  }

  /** `s` after its leading run of `\s`. */
  function SkipRun(s: string): (r: string)
    ensures |r| <= |s| && r == s[|s| - |r|..]
    ensures |r| > 0 ==> !IsRegexSpace(r[0])
    ensures Squeeze(r) == Squeeze(s)
    decreases |s|
  {
    if |s| > 0 && IsRegexSpace(s[0]) then SkipRun(s[1..]) else s
  }

  /** `re.sub(r"\s+", " ", s)`: each maximal run of `\s` becomes one U+0020. */
  function Collapse(s: string): (r: string)
    ensures SingleSpaced(r)
    ensures Squeeze(r) == Squeeze(s)
    ensures |r| == 0 <==> |s| == 0
    ensures |r| > 0 ==> (IsRegexSpace(r[0]) <==> IsRegexSpace(s[0]))
    decreases |s|
  {
    if |s| == 0 then ""
    else if IsRegexSpace(s[0]) then
      var rest := SkipRun(s);
      assert |rest| < |s|;
      var tail := Collapse(rest);
      ConsSingleSpaced(' ', tail);
      assert ([' '] + tail)[1..] == tail;
      [' '] + tail
    else
      var tail := Collapse(s[1..]);
      ConsSingleSpaced(s[0], tail);
      assert Squeeze(s) == [s[0]] + Squeeze(s[1..]);
      assert ([s[0]] + tail)[1..] == tail;
      [s[0]] + tail
  }

  /** A character that is not `\s` is copied through unchanged. */
  lemma CollapseKeeps(c: char, b: string)
    requires !IsRegexSpace(c)
    ensures Collapse([c] + b) == [c] + Collapse(b)
  {
    assert ([c] + b)[1..] == b;
  }

  /** The leading run ends where `b` starts when `b` does not start with `\s`. */
  lemma {:induction false} SkipRunPast(w: string, b: string)
    requires forall k :: 0 <= k < |w| ==> IsRegexSpace(w[k])
    requires |b| == 0 || !IsRegexSpace(b[0])
    ensures SkipRun(w + b) == b
    decreases |w|
  {
    if |w| > 0 {
      assert (w + b)[1..] == w[1..] + b;
      SkipRunPast(w[1..], b);
    }
  }

  /** A whole run of `\s`, however long and whatever its characters, becomes
      exactly one U+0020. */
  lemma CollapseRun(w: string, b: string)
    requires |w| > 0 && forall k :: 0 <= k < |w| ==> IsRegexSpace(w[k])
    requires |b| == 0 || !IsRegexSpace(b[0])
    ensures Collapse(w + b) == [' '] + Collapse(b)
  {
    assert (w + b)[0] == w[0];
    SkipRunPast(w, b);
  }

  /** A run never extends back past a character that is not `\s`. */
  lemma {:induction false} SkipRunAppend(a: string, x: string)
    requires |a| > 0 && !IsRegexSpace(a[|a| - 1])
    ensures SkipRun(a + x) == SkipRun(a) + x
    decreases |a|
  {
    if IsRegexSpace(a[0]) {
      assert (a + x)[1..] == a[1..] + x;
      SkipRunAppend(a[1..], x);
    }
  }

  /** Text ending in a character that is not `\s` collapses independently of
      what follows it. */
  lemma {:induction false} CollapseAppend(a: string, x: string)
    requires |a| == 0 || !IsRegexSpace(a[|a| - 1])
    ensures Collapse(a + x) == Collapse(a) + Collapse(x)
    decreases |a|, 1
  {
    if |a| == 0 {
      assert a + x == x;
    } else if IsRegexSpace(a[0]) {
      CollapseAppendRun(a, x);
    } else {
      CollapseAppendWord(a, x);
    }
  }

  /** `CollapseAppend` when `a` starts with `\s`. */
  lemma {:induction false} CollapseAppendRun(a: string, x: string)
    requires |a| > 0 && IsRegexSpace(a[0]) && !IsRegexSpace(a[|a| - 1])
    ensures Collapse(a + x) == Collapse(a) + Collapse(x)
    decreases |a|, 0
  {
    var rest := SkipRun(a);
    SkipRunKeepsLast(a);
    CollapseRunHead(a, x);
    CollapseAppend(rest, x);
    CollapseSpaceHead(a);
    AppendAssoc([' '], Collapse(rest), Collapse(x));
  }

  /** Concatenation is associative; stated once so that proofs about the
      collapse need not rediscover it element by element. */
  lemma AppendAssoc(p: string, q: string, r: string)
    ensures p + (q + r) == (p + q) + r
  {
  }

  /** The first step of the collapse of `a + x` when `a` starts with a run
      that ends inside `a`. */
  lemma CollapseRunHead(a: string, x: string)
    requires |a| > 0 && IsRegexSpace(a[0]) && !IsRegexSpace(a[|a| - 1])
    ensures Collapse(a + x) == [' '] + Collapse(SkipRun(a) + x)
  {
    assert (a + x)[0] == a[0];
    CollapseSpaceHead(a + x);
    SkipRunAppend(a, x);
  }

  /** `CollapseAppend` when `a` starts with a character that is not `\s`. */
  lemma {:induction false} CollapseAppendWord(a: string, x: string)
    requires |a| > 0 && !IsRegexSpace(a[0]) && !IsRegexSpace(a[|a| - 1])
    ensures Collapse(a + x) == Collapse(a) + Collapse(x)
    decreases |a|, 0
  {
    var tail := a[1..];
    assert |tail| == 0 || tail[|tail| - 1] == a[|a| - 1];
    assert a == [a[0]] + tail;
    AppendAssoc([a[0]], tail, x);
    CollapseKeeps(a[0], tail + x);
    CollapseAppend(tail, x);
    CollapseKeeps(a[0], tail);
    AppendAssoc([a[0]], Collapse(tail), Collapse(x));
  }

  /** Skipping the leading run of text that ends in a character that is not
      `\s` leaves that character last, and strictly shortens text that starts
      with `\s`. */
  lemma {:induction false} SkipRunKeepsLast(a: string)
    requires |a| > 0 && !IsRegexSpace(a[|a| - 1])
    ensures var r := SkipRun(a); |r| > 0 && r[|r| - 1] == a[|a| - 1]
    ensures IsRegexSpace(a[0]) ==> |SkipRun(a)| < |a|
    decreases |a|
  {
    if IsRegexSpace(a[0]) {
      SkipRunKeepsLast(a[1..]);
    }
  }

  /** One unfolding of the collapse at a leading `\s`. */
  lemma CollapseSpaceHead(s: string)
    requires |s| > 0 && IsRegexSpace(s[0])
    ensures Collapse(s) == [' '] + Collapse(SkipRun(s))
  {
  }

  /** The collapse of an inner run: the words either side are collapsed on
      their own and joined by one U+0020. */
  lemma CollapseBetween(a: string, w: string, b: string)
    requires |a| > 0 && !IsRegexSpace(a[|a| - 1])
    requires |w| > 0 && forall k :: 0 <= k < |w| ==> IsRegexSpace(w[k])
    requires |b| == 0 || !IsRegexSpace(b[0])
    ensures Collapse(a + w + b) == Collapse(a) + " " + Collapse(b)
  {
    AppendAssoc(a, w, b);
    CollapseAppend(a, w + b);
    CollapseRun(w, b);
    AppendAssoc(Collapse(a), " ", Collapse(b));
  }

  /** Text without `\s` is its own collapse. */
  lemma CollapseNoSpace(s: string)
    requires forall k :: 0 <= k < |s| ==> !IsRegexSpace(s[k])
    ensures Collapse(s) == s
  {
    CollapseFixes(s);
  }

  /** Deleting `\s` keeps every other character's count. */
  lemma {:induction false} SqueezeCounts(s: string, c: char)
    requires !IsRegexSpace(c)
    ensures multiset(Squeeze(s))[c] == multiset(s)[c]
    decreases |s|
  {
    if |s| > 0 {
      SqueezeCounts(s[1..], c);
      assert s == [s[0]] + s[1..];
    }
  }

  /** Putting a code point in front keeps single spacing when it is not `\s`,
      or is U+0020 followed by no `\s`. */
  lemma ConsSingleSpaced(c: char, r: string)
    requires SingleSpaced(r)
    requires IsRegexSpace(c) ==> c == ' ' && (|r| == 0 || !IsRegexSpace(r[0]))
    ensures SingleSpaced([c] + r)
  {
    var t := [c] + r;
    assert forall i :: 1 <= i < |t| ==> t[i] == r[i - 1];
  }

  /** Where `s.lstrip()` would start, searching from `from`: the first
      position that is not whitespace, or the end. */
  function FirstKept(s: string, from: nat): (i: nat)
    requires from <= |s|
    ensures from <= i <= |s|
    ensures forall k :: from <= k < i ==> IsStripSpace(s[k])
    ensures i < |s| ==> !IsStripSpace(s[i])
    decreases |s| - from
  {
    if from < |s| && IsStripSpace(s[from]) then FirstKept(s, from + 1) else from
  }

  /** Where `s.rstrip()` would end, searching back from `hi` but not past
      `lo`: one past the last position that is not whitespace, or `lo`. */
  function LastKept(s: string, lo: nat, hi: nat): (j: nat)
    requires lo <= hi <= |s|
    ensures lo <= j <= hi
    ensures forall k :: j <= k < hi ==> IsStripSpace(s[k])
    ensures j > lo ==> !IsStripSpace(s[j - 1])
    decreases hi
  {
    if hi > lo && IsStripSpace(s[hi - 1]) then LastKept(s, lo, hi - 1) else hi
  }

  /** How many characters `s.lstrip()` removes. */
  function LeadingSpace(s: string): (n: nat)
    ensures n <= |s|
    ensures forall k :: 0 <= k < n ==> IsStripSpace(s[k])
    ensures n < |s| ==> !IsStripSpace(s[n])
  {
    FirstKept(s, 0)
  }

  /** `s.strip()`: the slice of `s` starting after its leading whitespace whose
      ends are not whitespace and after which everything is whitespace. */
  function Strip(s: string): (r: string)
    ensures |r| > 0 ==> !IsStripSpace(r[0]) && !IsStripSpace(r[|r| - 1])
    ensures LeadingSpace(s) + |r| <= |s| && r == s[LeadingSpace(s)..LeadingSpace(s) + |r|]
    ensures forall k :: LeadingSpace(s) + |r| <= k < |s| ==> IsStripSpace(s[k])
  {
    var i := LeadingSpace(s);
    var j := LastKept(s, i, |s|);
    s[i..j]
  }

  /** Every `\s` character is U+0020 and no two `\s` characters are adjacent. */
  predicate SingleSpaced(r: string) {
    && (forall i :: 0 <= i < |r| && IsRegexSpace(r[i]) ==> r[i] == ' ')
    && (forall i :: 0 <= i < |r| - 1 ==> !IsRegexSpace(r[i]) || !IsRegexSpace(r[i + 1]))
  }

  /** What the final step of `normalize` guarantees: no whitespace at either end
      (in the `str.isspace` sense), and single spacing inside. */
  predicate IsCanonical(r: string) {
    && (|r| > 0 ==> !IsStripSpace(r[0]) && !IsStripSpace(r[|r| - 1]))
    && SingleSpaced(r)
  }

  /** A slice of single-spaced text is single-spaced. */
  lemma SliceSingleSpaced(c: string, i: nat, j: nat)
    requires i <= j <= |c| && SingleSpaced(c)
    ensures SingleSpaced(c[i..j])
  {
    var r := c[i..j];
    assert forall k :: 0 <= k < |r| ==> r[k] == c[i + k];
  }

  /** `re.sub(r"\s+", " ", s).strip()`. */
  function CollapseAndStrip(s: string): (r: string)
    ensures IsCanonical(r)
  {
    var c := Collapse(s);
    var i := LeadingSpace(c);
    SliceSingleSpaced(c, i, LastKept(c, i, |c|));
    Strip(c)
  }

  /** The final step only ever removes whitespace: every other character
      occurs in the result exactly as often as in the input. */
  lemma CollapseAndStripKeepsText(s: string)
    ensures forall c :: !IsStripSpace(c) ==>
      multiset(CollapseAndStrip(s))[c] == multiset(s)[c]
  {
    var t := Collapse(s);
    forall c | !IsStripSpace(c)
      ensures multiset(CollapseAndStrip(s))[c] == multiset(s)[c]
    {
      SqueezeCounts(t, c);
      SqueezeCounts(s, c);
      StripCounts(t, c);
    }
  }

  /** `str.strip` removes only whitespace. */
  lemma StripCounts(t: string, c: char)
    requires !IsStripSpace(c)
    ensures multiset(Strip(t))[c] == multiset(t)[c]
  {
    var i := LeadingSpace(t);
    var j := i + |Strip(t)|;
    assert t == t[..i] + Strip(t) + t[j..];
    assert c !in t[..i];
    assert c !in t[j..];
    assert multiset(t) == multiset(t[..i]) + multiset(Strip(t)) + multiset(t[j..]);
  }

  /** Two words joined by any run of `\s` come out joined by one U+0020. */
  lemma InnerRunCollapses(a: string, w: string, b: string)
    requires |a| > 0 && |b| > 0 && !IsStripSpace(a[0]) && !IsStripSpace(b[|b| - 1])
    requires forall k :: 0 <= k < |a| ==> !IsRegexSpace(a[k])
    requires forall k :: 0 <= k < |b| ==> !IsRegexSpace(b[k])
    requires |w| > 0 && forall k :: 0 <= k < |w| ==> IsRegexSpace(w[k])
    ensures CollapseAndStrip(a + w + b) == a + " " + b
  {
    CollapseBetween(a, w, b);
    CollapseNoSpace(a);
    CollapseNoSpace(b);
    JoinedCanonical(a, b);
    StripCanonical(a + " " + b);
  }

  /** Two words without `\s` joined by one U+0020 are canonical. */
  lemma JoinedCanonical(a: string, b: string)
    requires |a| > 0 && |b| > 0 && !IsStripSpace(a[0]) && !IsStripSpace(b[|b| - 1])
    requires forall k :: 0 <= k < |a| ==> !IsRegexSpace(a[k])
    requires forall k :: 0 <= k < |b| ==> !IsRegexSpace(b[k])
    ensures IsCanonical(a + " " + b)
  {
    var r := a + " " + b;
    assert forall k :: 0 <= k < |a| ==> r[k] == a[k];
    assert r[|a|] == ' ';
    assert forall k :: |a| < k < |r| ==> r[k] == b[k - |a| - 1];
  }

  /** `strip` leaves canonical text alone. */
  lemma StripCanonical(r: string)
    requires IsCanonical(r)
    ensures Strip(r) == r
  {
    assert LeadingSpace(r) == 0;
    assert LastKept(r, 0, |r|) == |r|;
  }

  /** U+00A0 and U+3000 are `\s`: a run of them collapses to one U+0020. */
  lemma WideSpacesCollapse()
    ensures CollapseAndStrip("a" + "\U{00A0}\U{3000}" + "b") == "a" + " " + "b"
  {
    InnerRunCollapses("a", "\U{00A0}\U{3000}", "b");
  }

  /** Text without `\s` is only stripped. */
  lemma OnlyStripped(s: string)
    requires forall k :: 0 <= k < |s| ==> !IsRegexSpace(s[k])
    ensures CollapseAndStrip(s) == Strip(s)
  {
    CollapseNoSpace(s);
  }

  /** The information separators U+001C..U+001F are not `\s` but `strip`
      counts them as whitespace: between words one survives the final step. */
  lemma SeparatorKeptInside(a: string, x: char, b: string)
    requires '\U{001C}' <= x <= '\U{001F}'
    requires |a| > 0 && |b| > 0 && !IsStripSpace(a[0]) && !IsStripSpace(b[|b| - 1])
    requires forall k :: 0 <= k < |a| ==> !IsRegexSpace(a[k])
    requires forall k :: 0 <= k < |b| ==> !IsRegexSpace(b[k])
    ensures CollapseAndStrip(a + [x] + b) == a + [x] + b
  {
    var r := a + [x] + b;
    assert forall k :: 0 <= k < |a| ==> r[k] == a[k];
    assert r[|a|] == x;
    assert forall k :: |a| < k < |r| ==> r[k] == b[k - |a| - 1];
    OnlyStripped(r);
    StripCanonical(r);
  }

  /** ...and text made only of them is stripped away entirely. */
  lemma SeparatorsStripped(t: string)
    requires forall k :: 0 <= k < |t| ==> '\U{001C}' <= t[k] <= '\U{001F}'
    ensures CollapseAndStrip(t) == ""
  {
    OnlyStripped(t);
    assert LeadingSpace(t) == |t|;
  }

  /** U+200B is whitespace to neither. */
  lemma ZeroWidthSpaceKept()
    ensures CollapseAndStrip("\U{200B}") == "\U{200B}"
  {
    CanonicalIsFixpoint("\U{200B}");
  }

  /** A canonical string contains no `\s` other than single U+0020s between
      other characters, so the collapse has nothing to change. */
  lemma {:induction false} CollapseFixes(s: string)
    requires SingleSpaced(s)
    ensures Collapse(s) == s
    decreases |s|
  {
    if |s| > 0 {
      SliceSingleSpaced(s, 1, |s|);
      CollapseFixes(s[1..]);
      if IsRegexSpace(s[0]) {
        assert |s| == 1 || !IsRegexSpace(s[1]);
        assert SkipRun(s[1..]) == s[1..];
        assert SkipRun(s) == s[1..];
      }
      assert s == [s[0]] + s[1..];
    }
  }

  /** The final step is idempotent: a canonical string is its own result, so
      running it on its own output changes nothing. */
  lemma CanonicalIsFixpoint(s: string)
    requires IsCanonical(s)
    ensures CollapseAndStrip(s) == s
  {
    CollapseFixes(s);
    assert LeadingSpace(s) == 0;
    assert LastKept(s, 0, |s|) == |s|;
  }

  lemma CollapseAndStripIdempotent(s: string)
    ensures CollapseAndStrip(CollapseAndStrip(s)) == CollapseAndStrip(s)
  {
    CanonicalIsFixpoint(CollapseAndStrip(s));
  }
}
