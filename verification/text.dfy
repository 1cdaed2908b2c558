/** Plain string helpers shared by the passes: ASCII, substring search,
    removing one character, and `sep.join`. */
module Text {

  /** Code points below 128. */
  predicate IsAscii(c: char) {
    c as int < 128
  }

  /** `needle` occurs in `hay` as a contiguous run. */
  ghost predicate IsSubstring(needle: string, hay: string) {
    exists i :: 0 <= i <= |hay| && needle <= hay[i..]
  }

  lemma SubstringOfTail(needle: string, hay: string)
    requires |hay| > 0 && !(needle <= hay)
    ensures IsSubstring(needle, hay) <==> IsSubstring(needle, hay[1..])
  {
    if IsSubstring(needle, hay) {
      var i :| 0 <= i <= |hay| && needle <= hay[i..];
      assert i != 0;
      assert hay[1..][i - 1..] == hay[i..];
    }
    if IsSubstring(needle, hay[1..]) {
      var i :| 0 <= i <= |hay[1..]| && needle <= hay[1..][i..];
      assert hay[1..][i..] == hay[i + 1..];
    }
  }

  /** Python's `needle in hay` on str: a left-to-right search for `needle`. */
  function Contains(hay: string, needle: string): (b: bool)
    ensures b <==> IsSubstring(needle, hay)
    decreases |hay|
  {
    if needle <= hay then
      assert needle <= hay[0..];
      true
    else if |hay| == 0 then
      false
    else
      SubstringOfTail(needle, hay);
      Contains(hay[1..], needle)
  }

  /** `s.replace(c, "")` for a one-character `c`. */
  function Remove(s: string, c: char): (r: string)
    ensures c !in r && |r| <= |s|
    decreases |s|
  {
    if |s| == 0 then
      ""
    else
      var rest := Remove(s[1..], c);
      if s[0] == c then rest else [s[0]] + rest
  }

  /** Removing `c` keeps every other code point, as often as it occurred, and
      shortens the text by the number of `c`s. */
  lemma {:induction false} RemoveKeepsOthers(s: string, c: char)
    ensures forall x :: x != c ==> multiset(Remove(s, c))[x] == multiset(s)[x]
    ensures |Remove(s, c)| == |s| - multiset(s)[c]
    decreases |s|
  {
    if |s| > 0 {
      RemoveKeepsOthers(s[1..], c);
      assert s == [s[0]] + s[1..];
    }
  }

  /** `sep.join(xs)`. */
  function Join(sep: string, xs: seq<string>): string
    decreases |xs|
  {
    if |xs| == 0 then ""
    else if |xs| == 1 then xs[0]
    else xs[0] + sep + Join(sep, xs[1..])
  }

  /** The total length of the strings in `xs`. */
  function TotalLength(xs: seq<string>): nat
    decreases |xs|
  {
    if |xs| == 0 then 0 else |xs[0]| + TotalLength(xs[1..])
  }

  /** A join holds every piece and one separator between each two. */
  lemma {:induction false} JoinLength(sep: string, xs: seq<string>)
    requires |xs| > 0
    ensures |Join(sep, xs)| == TotalLength(xs) + (|xs| - 1) * |sep|
    decreases |xs|
  {
    if |xs| > 1 {
      JoinLength(sep, xs[1..]);
    } else {
      assert xs[1..] == [];
    }
  }

  /** With a non-empty separator, the join is empty exactly when there is no
      piece, or one empty piece. */
  lemma JoinIsEmpty(sep: string, xs: seq<string>)
    requires |sep| > 0
    ensures Join(sep, xs) == "" <==> |xs| == 0 || (|xs| == 1 && xs[0] == "")
  {
    if |xs| > 1 {
      assert |Join(sep, xs)| >= |sep|;
    }
  }

  /** Position of the first `c` in `s`, or |s| when there is none. */
  function IndexOf(s: string, c: char): (i: nat)
    ensures i <= |s|
    ensures forall k :: 0 <= k < i ==> s[k] != c
    ensures i < |s| ==> s[i] == c
    decreases |s|
  {
    if |s| == 0 then 0
    else if s[0] == c then 0
    else 1 + IndexOf(s[1..], c)
  }

  /** Python's `s.split(sep)` for a one-character separator: the pieces between
      separators, empty ones included, never an empty list. */
  function Split(s: string, sep: char): (pieces: seq<string>)
    ensures |pieces| > 0
    ensures forall k :: 0 <= k < |pieces| ==> sep !in pieces[k]
    decreases |s|
  {
    var i := IndexOf(s, sep);
    if i == |s| then [s] else [s[..i]] + Split(s[i + 1..], sep)
  }

  /** The first `c` sits at `i` when `s[i]` is `c` and nothing before it is. */
  lemma IndexOfAt(s: string, c: char, i: nat)
    requires i <= |s|
    requires forall k :: 0 <= k < i ==> s[k] != c
    requires i < |s| ==> s[i] == c
    ensures IndexOf(s, c) == i
  {
  }

  /** Joining with a one-character separator is undone by splitting on it, as long
      as no piece contains the separator. */
  lemma {:induction false} SplitJoin(xs: seq<string>, sep: char)
    requires |xs| > 0
    requires forall k :: 0 <= k < |xs| ==> sep !in xs[k]
    ensures Split(Join([sep], xs), sep) == xs
    decreases |xs|
  {
    if |xs| == 1 {
      IndexOfAt(xs[0], sep, |xs[0]|);
    } else {
      var head := xs[0];
      var rest := Join([sep], xs[1..]);
      var s := head + [sep] + rest;
      assert s == Join([sep], xs);
      assert s[..|head|] == head;
      assert s[|head| + 1..] == rest;
      assert forall k :: 0 <= k < |head| ==> s[k] == head[k];
      IndexOfAt(s, sep, |head|);
      SplitJoin(xs[1..], sep);
      calc {
        Split(s, sep);
        [s[..|head|]] + Split(s[|head| + 1..], sep);
        [head] + xs[1..];
        xs;
      }
    }
  }

  /** Removing a character that does not occur changes nothing. */
  lemma {:induction false} RemoveAbsent(s: string, c: char)
    requires c !in s
    ensures Remove(s, c) == s
    decreases |s|
  {
    if |s| > 0 {
      RemoveAbsent(s[1..], c);
      assert s == [s[0]] + s[1..];
    }
  }

  /** Removing a character from a concatenation removes it from each part. */
  lemma {:induction false} RemoveAppend(a: string, b: string, c: char)
    ensures Remove(a + b, c) == Remove(a, c) + Remove(b, c)
    decreases |a|
  {
    if |a| > 0 {
      RemoveAppend(a[1..], b, c);
      assert (a + b)[1..] == a[1..] + b;
    } else {
      assert a + b == b;
    }
  }

  /** Lower-casing restricted to ASCII: `A`..`Z` become `a`..`z`. */
  function AsciiLower(s: string): (r: string)
    ensures |r| == |s|
    decreases |s|
  {
    if |s| == 0 then "" else [LowerAscii(s[0])] + AsciiLower(s[1..])
  }

  /** Each code point is lower-cased on its own. */
  lemma {:induction false} AsciiLowerAt(s: string)
    ensures forall i :: 0 <= i < |s| ==> AsciiLower(s)[i] == LowerAscii(s[i])
    decreases |s|
  {
    if |s| > 0 {
      AsciiLowerAt(s[1..]);
      assert AsciiLower(s) == [LowerAscii(s[0])] + AsciiLower(s[1..]);
    }
  }

  /** One code point lower-cased: `A`-`Z` become `a`-`z`, the rest stay. */
  function LowerAscii(c: char): char {
    if 'A' <= c <= 'Z' then (c as int + 32) as char else c
  }

  /** ASCII lower-casing works code point by code point. */
  lemma {:induction false} AsciiLowerAppend(a: string, b: string)
    ensures AsciiLower(a + b) == AsciiLower(a) + AsciiLower(b)
    decreases |a|
  {
    if |a| > 0 {
      AsciiLowerAppend(a[1..], b);
      assert (a + b)[1..] == a[1..] + b;
    } else {
      assert a + b == b;
    }
  }

  /** A lower-casing function that agrees with ASCII lower-casing on ASCII
      text, as Python's `str.lower` does. */
  ghost predicate LowersAscii(lower: string -> string) {
    forall s {:trigger lower(s)} :: AllAscii(s) ==> lower(s) == AsciiLower(s)
  }

  /** Text made of ASCII code points only. */
  predicate AllAscii(s: string) {
    forall i :: 0 <= i < |s| ==> IsAscii(s[i])
  }

  /** A substring of a substring is a substring. */
  lemma SubstringTransitive(a: string, b: string, c: string)
    requires IsSubstring(a, b) && IsSubstring(b, c)
    ensures IsSubstring(a, c)
  {
    var i :| 0 <= i <= |b| && a <= b[i..];
    var j :| 0 <= j <= |c| && b <= c[j..];
    assert a <= c[j + i..] by {
      forall k | 0 <= k < |a|
        ensures a[k] == c[j + i + k]
      {
        assert a[k] == b[i + k];
        assert b[i + k] == c[j..][i + k];
      }
    }
  }

  /** No string occurs twice in `xs`. */
  predicate Distinct(xs: seq<string>) {
    forall i, j :: 0 <= i < j < |xs| ==> xs[i] != xs[j]
  }

  /** No string of `xs` occurs in `ys`. */
  predicate Apart(xs: seq<string>, ys: seq<string>) {
    forall i, j :: 0 <= i < |xs| && 0 <= j < |ys| ==> xs[i] != ys[j]
  }

  /** Two lists without repeats and without common strings make a list
      without repeats. */
  lemma DistinctConcat(xs: seq<string>, ys: seq<string>)
    requires Distinct(xs) && Distinct(ys) && Apart(xs, ys)
    ensures Distinct(xs + ys)
  {
    var zs := xs + ys;
    forall i, j | 0 <= i < j < |zs|
      ensures zs[i] != zs[j]
    {
      if j < |xs| {
        assert zs[i] == xs[i] && zs[j] == xs[j];
      } else if i < |xs| {
        assert zs[i] == xs[i] && zs[j] == ys[j - |xs|];
      } else {
        assert zs[i] == ys[i - |xs|] && zs[j] == ys[j - |xs|];
      }
    }
  }

  /** A list apart from two lists is apart from their concatenation. */
  lemma ApartConcat(xs: seq<string>, ys: seq<string>, zs: seq<string>)
    requires Apart(xs, ys) && Apart(xs, zs)
    ensures Apart(xs, ys + zs)
  {
    forall i, j | 0 <= i < |xs| && 0 <= j < |ys + zs|
      ensures xs[i] != (ys + zs)[j]
    {
      if j < |ys| {
        assert (ys + zs)[j] == ys[j];
      } else {
        assert (ys + zs)[j] == zs[j - |ys|];
      }
    }
  }
}
