/** `re.compile("|".join(keys)).sub(repl, text)` for the patterns of this
    program: each branch is a literal string, except one branch of the shape
    `a([^b])c`. At every position the branches are tried in order and the first
    that matches wins; matches do not overlap, and text no branch matches is
    copied unchanged. */
module Alternation {
  import opened Wrappers

  /** One branch of the alternation. */
  datatype Alt =
    | Literal(text: string)
      /** `open([^excluded])close`: three code points, the middle one captured as group 1. */
    | Bracketed(open: char, excluded: char, close: char)

  /** A match at the start of the subject: the text it covers and group 1. */
  datatype Match = Match(text: string, group1: Option<char>)

  /** The first branch that matched, by its position in the alternation. */
  datatype Hit = Hit(index: nat, m: Match)

  /** How many code points a match of `a` covers. */
  function Width(a: Alt): nat {
    match a
    case Literal(t) => |t|
    case Bracketed(_, _, _) => 3
  }

  /** No branch can match the empty string (true of every table here). */
  predicate NonEmpty(alts: seq<Alt>) {
    forall i :: 0 <= i < |alts| ==> Width(alts[i]) > 0
  }

  /** Does `a` match at the start of `s`? */
  function MatchAt(a: Alt, s: string): (r: Option<Match>)
    ensures r.Some? ==> |r.value.text| == Width(a) && r.value.text <= s
  {
    match a
    case Literal(t) =>
      if t <= s then Some(Match(t, None)) else None
    case Bracketed(o, x, c) =>
      if 3 <= |s| && s[0] == o && s[1] != x && s[2] == c then Some(Match(s[..3], Some(s[1]))) else None
  }

  /** The first branch from position `k` on that matches at the start of `s`. */
  function FirstMatchFrom(alts: seq<Alt>, s: string, k: nat): (r: Option<Hit>)
    requires k <= |alts|
    ensures r.Some? ==> k <= r.value.index < |alts| && MatchAt(alts[r.value.index], s) == Some(r.value.m)
    ensures r.Some? ==> forall j :: k <= j < r.value.index ==> MatchAt(alts[j], s).None?
    ensures r.None? ==> forall j :: k <= j < |alts| ==> MatchAt(alts[j], s).None?
    decreases |alts| - k
  {
    if k == |alts| then None
    else match MatchAt(alts[k], s)
      case Some(m) => Some(Hit(k, m))
      case None => FirstMatchFrom(alts, s, k + 1)
  }

  /** The branch the regex engine picks at the start of `s`: the first in order
      that matches, or none. */
  function FirstMatch(alts: seq<Alt>, s: string): Option<Hit> {
    FirstMatchFrom(alts, s, 0)
  }

  /** The first-match rule pins the result down: if branch `k` matches and no
      earlier one does, branch `k` is chosen. */
  lemma FirstMatchIs(alts: seq<Alt>, s: string, k: nat)
    requires k < |alts| && MatchAt(alts[k], s).Some?
    requires forall j :: 0 <= j < k ==> MatchAt(alts[j], s).None?
    ensures FirstMatch(alts, s) == Some(Hit(k, MatchAt(alts[k], s).value))
  {
  }

  /** `pattern.sub(repl, s)` with a replacement function. */
  function Sub(alts: seq<Alt>, repl: Match -> string, s: string): (r: string)
    requires NonEmpty(alts)
    ensures (forall i :: 0 <= i < |s| ==> FirstMatch(alts, s[i..]).None?) ==> r == s
    decreases |s|
  {
    if |s| == 0 then ""
    else match FirstMatch(alts, s)
      case None =>
        assert forall i :: 0 <= i < |s| - 1 ==> s[1..][i..] == s[i + 1..];
        [s[0]] + Sub(alts, repl, s[1..])
      case Some(h) =>
        assert s[0..] == s;
        assert |h.m.text| == Width(alts[h.index]) > 0;
        repl(h.m) + Sub(alts, repl, s[|h.m.text|..])
  }

  /** Where branch `k` is chosen, its replacement is emitted and the scan goes
      on after the matched text. */
  lemma SubAtMatch(alts: seq<Alt>, repl: Match -> string, m: Match, rest: string, k: nat)
    requires NonEmpty(alts)
    requires FirstMatch(alts, m.text + rest) == Some(Hit(k, m))
    ensures Sub(alts, repl, m.text + rest) == repl(m) + Sub(alts, repl, rest)
  {
    assert |m.text| > 0 by {
      assert |m.text| == Width(alts[k]);
    }
    assert (m.text + rest)[|m.text|..] == rest;
  }

  /** Where no branch matches, the code point is copied and the scan moves on by one. */
  lemma SubAtMiss(alts: seq<Alt>, repl: Match -> string, c: char, rest: string)
    requires NonEmpty(alts)
    requires FirstMatch(alts, [c] + rest).None?
    ensures Sub(alts, repl, [c] + rest) == [c] + Sub(alts, repl, rest)
  {
    assert ([c] + rest)[1..] == rest;
  }

  /** A code point that is a branch on its own, or absent from the input, and
      that no replacement produces, is absent from the output. */
  lemma {:induction false} SubAvoids(alts: seq<Alt>, repl: Match -> string, s: string, c: char)
    requires NonEmpty(alts)
    requires Literal([c]) in alts || c !in s
    requires forall m :: c !in repl(m)
    ensures c !in Sub(alts, repl, s)
    decreases |s|
  {
    if |s| > 0 {
      match FirstMatch(alts, s)
      case None =>
        if Literal([c]) in alts {
          var k :| 0 <= k < |alts| && alts[k] == Literal([c]);
          assert MatchAt(alts[k], s).None?;
          assert s[0] != c;
        }
        SubAvoids(alts, repl, s[1..], c);
      case Some(h) =>
        assert |h.m.text| == Width(alts[h.index]) > 0;
        SubAvoids(alts, repl, s[|h.m.text|..], c);
    }
  }

  /** A literal branch that starts with an earlier literal branch is never
      chosen: the earlier one matches wherever it would. */
  lemma Shadowed(alts: seq<Alt>, s: string, i: nat, j: nat)
    requires i < j < |alts|
    requires alts[i].Literal? && alts[j].Literal? && alts[i].text <= alts[j].text
    ensures FirstMatch(alts, s).None? || FirstMatch(alts, s).value.index != j
  {
    if MatchAt(alts[j], s).Some? {
      assert MatchAt(alts[i], s).Some?;
    }
  }

  /** Where every chosen match is replaced by its own text, nothing changes. */
  lemma {:induction false} SubKeepsSelfReplacements(alts: seq<Alt>, repl: Match -> string, s: string)
    requires NonEmpty(alts)
    requires forall i :: 0 <= i < |s| && FirstMatch(alts, s[i..]).Some? ==>
      repl(FirstMatch(alts, s[i..]).value.m) == FirstMatch(alts, s[i..]).value.m.text
    ensures Sub(alts, repl, s) == s
    decreases |s|
  {
    if |s| > 0 {
      assert s[0..] == s;
      match FirstMatch(alts, s)
      case None =>
        assert forall i :: 0 <= i < |s| - 1 ==> s[1..][i..] == s[i + 1..];
        SubKeepsSelfReplacements(alts, repl, s[1..]);
        assert s == [s[0]] + s[1..];
      case Some(h) =>
        var n := |h.m.text|;
        assert n == Width(alts[h.index]) > 0;
        assert forall i :: 0 <= i < |s| - n ==> s[n..][i..] == s[i + n..];
        SubKeepsSelfReplacements(alts, repl, s[n..]);
        assert s == h.m.text + s[n..];
    }
  }
}
