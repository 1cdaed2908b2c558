/** The multi-code-point replacement table (`UNICODE_REPLACEMENTS`), the
    alternation compiled from its keys, and the substitution that looks each
    match up in the table again. */
module UnicodeTable {
  import opened Wrappers
  import opened Alternation
  import opened Text

  const VowelSignE: char := '\U{09C7}'
  const VowelSignAa: char := '\U{09BE}'
  const VowelSignO: char := '\U{09CB}'
  const VowelSignAu: char := '\U{09CC}'
  const AuLengthMark: char := '\U{09D7}'
  const Candrabindu: char := '\U{0981}'

  /** The one key written in regex syntax: E-sign, any code point but the
      length mark (group 1), length mark. */
  const VowelSignPattern: string := "\U{09C7}([^\U{09D7}])\U{09D7}"

  /** Lines 529-539 of the dict: soft hyphen and Bangla sign sequences. */
  const BanglaSigns: seq<(string, string)> := [
    ("\U{00AD}", ""),
    ("\U{09AF}\U{09BC}", "\U{09DF}"),
    ("\U{09A2}\U{09BC}", "\U{09DD}"),
    ("\U{09A1}\U{09BC}", "\U{09DC}"),
    ("\U{09AC}\U{09BC}", "\U{09B0}"),
    ("\U{09C7}\U{09BE}", "\U{09CB}"),
    ("\U{09C7}\U{09D7}", "\U{09CC}"),
    ("\U{0985}\U{09BE}", "\U{0986}"),
    ("\U{09C7}\U{0981}\U{09D7}", "\U{09CC}\U{0981}"),
    ("\U{09C7}\U{0981}\U{09BE}", "\U{09CB}\U{0981}"),
    (VowelSignPattern, "\\g<1>\U{09CC}")
  ]

  /** Lines 540-559: spaces, invisible marks, quotes, dashes, ellipsis, guillemets. */
  const SpacesAndQuotes: seq<(string, string)> := [
    ("\U{00A0}", " "),
    ("\U{200B}", ""),
    ("\U{2060}", ""),
    ("\U{201E}", "\""),
    ("\U{201C}", "\""),
    ("\U{201D}", "\""),
    ("\U{2013}", "-"),
    ("\U{2014}", " - "),
    ("\U{00B4}", "'"),
    ("\U{2018}", "'"),
    ("\U{201A}", "'"),
    ("\U{2019}", "'"),
    ("\U{00B4}\U{00B4}", "\""),
    ("\U{2026}", "..."),
    ("\U{00A0}\U{00AB}\U{00A0}", "\""),
    ("\U{00AB}\U{00A0}", "\""),
    ("\U{00AB}", "\""),
    ("\U{00A0}\U{00BB}\U{00A0}", "\""),
    ("\U{00A0}\U{00BB}", "\""),
    ("\U{00BB}", "\"")
  ]

  /** Lines 560-590: the Bangla currency numerator, CJK and fullwidth forms. */
  const WideForms: seq<(string, string)> := [
    ("\U{09F7}", "\U{0964}"),
    ("\U{FF0C}", ","),
    ("\U{3001}", ","),
    ("\U{2236}", ":"),
    ("\U{FF1A}", ":"),
    ("\U{FF1F}", "?"),
    ("\U{300A}", "\""),
    ("\U{300B}", "\""),
    ("\U{FF09}", ")"),
    ("\U{FF01}", "!"),
    ("\U{FF08}", "("),
    ("\U{FF1B}", ";"),
    ("\U{300D}", "\""),
    ("\U{300C}", "\""),
    ("\U{FF10}", "0"),
    ("\U{FF11}", "1"),
    ("\U{FF12}", "2"),
    ("\U{FF13}", "3"),
    ("\U{FF14}", "4"),
    ("\U{FF15}", "5"),
    ("\U{FF16}", "6"),
    ("\U{FF17}", "7"),
    ("\U{FF18}", "8"),
    ("\U{FF19}", "9"),
    ("\U{FF5E}", "~"),
    ("\U{2501}", "-"),
    ("\U{3008}", "<"),
    ("\U{3009}", ">"),
    ("\U{3010}", "["),
    ("\U{3011}", "]"),
    ("\U{FF05}", "%")
  ]

  /** The table in insertion order, which is the order of the alternation. */
  const Table: seq<(string, string)> := BanglaSigns + SpacesAndQuotes + WideForms

  /** Where the fullwidth digits start: in the table, and within WideForms. */
  const FirstDigitEntry: nat := 45
  const FirstDigitInSection: nat := 14

  /** Indexing the table is indexing one of its sections. */
  lemma TableAt(i: nat)
    requires i < |Table|
    ensures |Table| == 62
    ensures i < 11 ==> Table[i] == BanglaSigns[i]
    ensures 11 <= i < 31 ==> Table[i] == SpacesAndQuotes[i - 11]
    ensures 31 <= i ==> Table[i] == WideForms[i - 31]
  {
  }

  /** Code points the regex parser treats specially outside a class (all of
      them ASCII). */
  predicate IsRegexSyntax(c: char) {
    c as int < 128 && c in "\\.^$*+?{}[]|()"
  }

  /** Every key is non-empty, and every key but the pattern is plain text,
      so reading it as a literal is what the regex compiler does too. */
  predicate KeysArePlain(entries: seq<(string, string)>) {
    forall k :: 0 <= k < |entries| ==>
      |entries[k].0| > 0 &&
      (entries[k].0 == VowelSignPattern || forall n :: 0 <= n < |entries[k].0| ==> !IsRegexSyntax(entries[k].0[n]))
  }

  /** No key of `entries` starts with a code point in `lo..hi`. */
  predicate NoKeyStartsIn(entries: seq<(string, string)>, lo: char, hi: char) {
    forall k :: 0 <= k < |entries| ==> |entries[k].0| == 0 || !(lo <= entries[k].0[0] <= hi)
  }

  lemma BanglaSignsArePlain()
    ensures KeysArePlain(BanglaSigns)
  {
  }

  lemma SpacesAndQuotesArePlain()
    ensures KeysArePlain(SpacesAndQuotes)
  {
  }

  lemma WideFormsArePlain()
    ensures KeysArePlain(WideForms)
  {
  }

  /** The E-sign starts keys only in the first section. */
  lemma ESignOnlyInBanglaSigns()
    ensures NoKeyStartsIn(SpacesAndQuotes, VowelSignE, VowelSignE)
    ensures NoKeyStartsIn(WideForms, VowelSignE, VowelSignE)
  {
  }

  /** The pattern is entry 10 and no other. */
  lemma PatternOnlyAt10(i: nat)
    requires i < |Table|
    ensures Table[i].0 == VowelSignPattern <==> i == 10
  {
    TableAt(i);
    ESignOnlyInBanglaSigns();
    SpacesAndQuotesArePlain();
    WideFormsArePlain();
    if 11 <= i < 31 {
      assert SpacesAndQuotes[i - 11].0[0] != VowelSignPattern[0];
    } else if 31 <= i {
      assert WideForms[i - 31].0[0] != VowelSignPattern[0];
    }
  }

  /** How the regex compiler reads one key. */
  function Compile(key: string): (a: Alt)
    ensures a.Bracketed? <==> key == VowelSignPattern
    ensures a.Literal? ==> a.text == key
  {
    if key == VowelSignPattern then Bracketed(VowelSignE, AuLengthMark, AuLengthMark) else Literal(key)
  }

  /** `"|".join(UNICODE_REPLACEMENTS.keys())`, compiled: one branch per key, in
      table order, the pattern key as the bracketed branch. */
  function Alternatives(): (alts: seq<Alt>)
    ensures |alts| == |Table|
    ensures forall i :: 0 <= i < |Table| ==> alts[i] == Compile(Table[i].0)
  {
    seq(|Table|, i requires 0 <= i < |Table| => Compile(Table[i].0))
  }

  /** Joining the keys with `|` and compiling gives one branch per entry:
      every key but entry 10 is free of regex syntax, so its branch matches
      exactly that text; entry 10 is the one real pattern. */
  lemma BranchOfEntry(i: nat)
    requires i < |Table|
    ensures i != 10 ==> Alternatives()[i] == Literal(Table[i].0)
    ensures i != 10 ==> forall n :: 0 <= n < |Table[i].0| ==> !IsRegexSyntax(Table[i].0[n])
    ensures i == 10 ==> Alternatives()[i] == Bracketed(VowelSignE, AuLengthMark, AuLengthMark)
  {
    PatternOnlyAt10(i);
    TableAt(i);
    BanglaSignsArePlain();
    SpacesAndQuotesArePlain();
    WideFormsArePlain();
  }

  /** No branch matches the empty string. */
  lemma AlternativesNonEmpty()
    ensures NonEmpty(Alternatives())
  {
    var alts := Alternatives();
    forall i | 0 <= i < |alts|
      ensures Width(alts[i]) > 0
    {
      TableAt(i);
      BanglaSignsArePlain();
      SpacesAndQuotesArePlain();
      WideFormsArePlain();
    }
  }

  /** Position of the first entry with key `key`. */
  function KeyIndex(entries: seq<(string, string)>, key: string): (r: Option<nat>)
    ensures r.Some? ==> r.value < |entries| && entries[r.value].0 == key
    ensures r.Some? ==> forall j :: 0 <= j < r.value ==> entries[j].0 != key
    ensures r.None? ==> forall j :: 0 <= j < |entries| ==> entries[j].0 != key
  {
    if |entries| == 0 then None
    else if entries[0].0 == key then Some(0)
    else match KeyIndex(entries[1..], key)
      case None => None
      case Some(k) => Some(k + 1)
  }

  /** An entry whose key no earlier entry has is the one found. */
  lemma KeyIndexOfFirst(entries: seq<(string, string)>, i: nat)
    requires i < |entries|
    requires forall j :: 0 <= j < i ==> entries[j].0 != entries[i].0
    ensures KeyIndex(entries, entries[i].0) == Some(i)
  {
  }

  /** The keys of `entries` at positions `lo..hi` are pairwise different. */
  predicate KeysDistinctIn(entries: seq<(string, string)>, lo: nat, hi: nat)
    requires lo <= hi <= |entries|
  {
    forall i, j :: lo <= i < j < hi ==> entries[i].0 != entries[j].0
  }

  /** No key of `es` at positions `a..b` is a key of `fs` at positions `c..d`. */
  predicate KeysApart(es: seq<(string, string)>, a: nat, b: nat, fs: seq<(string, string)>, c: nat, d: nat)
    requires a <= b <= |es| && c <= d <= |fs|
  {
    forall i, j :: a <= i < b && c <= j < d ==> es[i].0 != fs[j].0
  }

  lemma BanglaKeysDistinct()
    ensures KeysDistinctIn(BanglaSigns, 0, 11)
  {
  }

  lemma SpacesKeysDistinctLow()
    ensures KeysDistinctIn(SpacesAndQuotes, 0, 10)
  {
  }

  lemma SpacesKeysDistinctHigh()
    ensures KeysDistinctIn(SpacesAndQuotes, 10, 20)
  {
  }

  lemma SpacesKeysHalvesApart()
    ensures KeysApart(SpacesAndQuotes, 0, 10, SpacesAndQuotes, 10, 20)
  {
  }

  /** Split where the fullwidth digits start. */
  lemma WideKeysDistinctLow()
    ensures KeysDistinctIn(WideForms, 0, FirstDigitInSection)
  {
  }

  lemma WideKeysDistinctHigh()
    ensures KeysDistinctIn(WideForms, FirstDigitInSection, 31)
  {
  }

  lemma WideKeysHalvesApart()
    ensures KeysApart(WideForms, 0, FirstDigitInSection, WideForms, FirstDigitInSection, 31)
  {
  }

  lemma BanglaSpacesApart()
    ensures KeysApart(BanglaSigns, 0, 11, SpacesAndQuotes, 0, 20)
  {
  }

  /** Where the keys of each section start: Bangla signs below U+09C8; spaces
      and quotes below U+2061 but never at U+09F7; wide forms at U+09F7 or
      above U+2060. */
  lemma StartsOfBangla()
    ensures NoKeyStartsIn(BanglaSigns, '\U{09C8}', '\U{10FFFF}')
  {
  }

  lemma StartsOfSpaces()
    ensures NoKeyStartsIn(SpacesAndQuotes, '\U{2061}', '\U{10FFFF}')
    ensures NoKeyStartsIn(SpacesAndQuotes, '\U{09F7}', '\U{09F7}')
  {
  }

  lemma StartsOfWide()
    ensures NoKeyStartsIn(WideForms, '\0', '\U{09F6}')
    ensures NoKeyStartsIn(WideForms, '\U{09F8}', '\U{2060}')
  {
    forall k | 0 <= k < |WideForms|
      ensures |WideForms[k].0| == 0 || !('\0' <= WideForms[k].0[0] <= '\U{09F6}')
      ensures |WideForms[k].0| == 0 || !('\U{09F8}' <= WideForms[k].0[0] <= '\U{2060}')
    {
    }
  }

  lemma BanglaWideApart()
    ensures KeysApart(BanglaSigns, 0, 11, WideForms, 0, 31)
  {
    StartsOfBangla();
    StartsOfWide();
    BanglaSignsArePlain();
    WideFormsArePlain();
  }

  lemma SpacesWideApart()
    ensures KeysApart(SpacesAndQuotes, 0, 20, WideForms, 0, 31)
  {
    StartsOfSpaces();
    StartsOfWide();
    SpacesAndQuotesArePlain();
    WideFormsArePlain();
  }

  /** No key is listed twice. A Python dict literal keeps the last value of a
      repeated key while `KeyIndex` finds the first, so this is what makes
      `Get` the dict lookup; it also means the alternation has one branch per
      dict key. */
  lemma TableKeysDistinct()
    ensures forall i, j :: 0 <= i < j < |Table| ==> Table[i].0 != Table[j].0
  {
    BanglaKeysDistinct();
    SpacesKeysDistinctLow();
    SpacesKeysDistinctHigh();
    SpacesKeysHalvesApart();
    WideKeysDistinctLow();
    WideKeysDistinctHigh();
    WideKeysHalvesApart();
    BanglaSpacesApart();
    BanglaWideApart();
    SpacesWideApart();
    forall i, j | 0 <= i < j < |Table|
      ensures Table[i].0 != Table[j].0
    {
      TableAt(i);
      TableAt(j);
    }
  }

  /** Every entry is the one the lookup finds for its key. */
  lemma GetFindsEntry(i: nat)
    requires i < |Table|
    ensures Get(Table[i].0) == Some(Table[i].1)
  {
    TableKeysDistinct();
    KeyIndexOfFirst(Table, i);
  }

  /** `UNICODE_REPLACEMENTS.get(key)`. */
  function Get(key: string): (r: Option<string>)
    ensures r.None? <==> forall j :: 0 <= j < |Table| ==> Table[j].0 != key
    ensures r.Some? ==> exists j :: 0 <= j < |Table| && Table[j] == (key, r.value)
  {
    match KeyIndex(Table, key)
    case None => None
    case Some(j) => Some(Table[j].1)
  }

  /** `f"{g}"` for an optional group: an absent group prints as `None`. */
  function FormatGroup(g: Option<char>): (r: string)
    ensures g.Some? ==> r == [g.value]
    ensures g.None? ==> r == "None"
  {
    match g
    case Some(c) => [c]
    case None => "None"
  }

  /** The replacement function: the table value of the matched text, and
      otherwise group 1 followed by the AU vowel sign. */
  function Replacement(m: Match): string {
    match Get(m.text)
    case Some(v) => v
    case None => FormatGroup(m.group1) + [VowelSignAu]
  }

  /** `UNICODE_REPLACEMENTS_REGEX.sub(lambda ..., text)`. */
  function ReplaceUnicode(s: string): string {
    AlternativesNonEmpty();
    Sub(Alternatives(), Replacement, s)
  }

  /** Text where no branch matches at any position passes unchanged. */
  lemma UnmatchedUnchanged(s: string)
    requires forall i :: 0 <= i < |s| ==> FirstMatch(Alternatives(), s[i..]).None?
    ensures ReplaceUnicode(s) == s
  {
    AlternativesNonEmpty();
  }

  /** Where no branch matches, the code point is copied unchanged and the
      scan moves on by one. */
  lemma ReplaceUnicodeAtMiss(c: char, rest: string)
    requires FirstMatch(Alternatives(), [c] + rest).None?
    ensures ReplaceUnicode([c] + rest) == [c] + ReplaceUnicode(rest)
  {
    AlternativesNonEmpty();
    SubAtMiss(Alternatives(), Replacement, c, rest);
  }

  /** Where branch `k` is the first to match, the matched text is replaced by
      the replacement function's value and the scan resumes after it. */
  lemma ReplaceUnicodeAtMatch(m: Match, rest: string, k: nat)
    requires FirstMatch(Alternatives(), m.text + rest) == Some(Hit(k, m))
    ensures ReplaceUnicode(m.text + rest) == Replacement(m) + ReplaceUnicode(rest)
  {
    AlternativesNonEmpty();
    SubAtMatch(Alternatives(), Replacement, m, rest, k);
  }

  /** Where a literal branch is chosen, its own table value replaces it. */
  lemma LiteralBranchValue(s: string)
    requires FirstMatch(Alternatives(), s).Some?
    requires FirstMatch(Alternatives(), s).value.index != 10
    ensures var h := FirstMatch(Alternatives(), s).value;
      Replacement(h.m) == Table[h.index].1
  {
    var alts := Alternatives();
    var h := FirstMatch(alts, s).value;
    var i := h.index;
    PatternOnlyAt10(i);
    var key := Table[i].0;
    assert alts[i] == Literal(key);
    forall j | 0 <= j < i
      ensures Table[j].0 != key
    {
      assert MatchAt(alts[j], s).None?;
    }
    KeyIndexOfFirst(Table, i);
  }

  /** Where the pattern branch is chosen, no key equals the matched text, so
      the default applies: group 1 followed by the AU sign. */
  lemma PatternBranchValue(s: string)
    requires FirstMatch(Alternatives(), s).Some?
    requires FirstMatch(Alternatives(), s).value.index == 10
    ensures Replacement(FirstMatch(Alternatives(), s).value.m) == [s[1], VowelSignAu]
  {
    var alts := Alternatives();
    var h := FirstMatch(alts, s).value;
    TableAt(10);
    assert alts[10] == Bracketed(VowelSignE, AuLengthMark, AuLengthMark);
    var text := h.m.text;
    assert text == [VowelSignE, s[1], AuLengthMark];
    assert h.m.group1 == Some(s[1]);
    ESignOnlyInBanglaSigns();
    forall j | 0 <= j < |Table|
      ensures Table[j].0 != text
    {
      TableAt(j);
      if j < 10 {
        assert MatchAt(alts[j], s).None?;
      } else if 11 <= j < 31 {
        assert |SpacesAndQuotes[j - 11].0| == 0 || SpacesAndQuotes[j - 11].0[0] != text[0];
      } else if 31 <= j {
        assert |WideForms[j - 31].0| == 0 || WideForms[j - 31].0[0] != text[0];
      }
    }
  }

  /** The lookup in the replacement function agrees with the branch the
      alternation chose: a literal branch gets its own table value, and the
      pattern branch gets group 1 followed by the AU sign. The `None` text of
      the default is never produced. */
  lemma ReplacementFollowsBranch(s: string)
    requires FirstMatch(Alternatives(), s).Some?
    ensures var h := FirstMatch(Alternatives(), s).value;
      Replacement(h.m) == if h.index == 10 then [s[1], VowelSignAu] else Table[h.index].1
  {
    if FirstMatch(Alternatives(), s).value.index == 10 {
      PatternBranchValue(s);
    } else {
      LiteralBranchValue(s);
    }
  }

  /** Which earlier branches could compete with the pattern at an E-sign:
      none, unless the next code point is one the literal entries name. */
  lemma EarlierBranchMissesAtESign(s: string, j: nat)
    requires |s| >= 2 && s[0] == VowelSignE
    requires s[1] != VowelSignAa && s[1] != AuLengthMark && s[1] != Candrabindu
    requires j < 10
    ensures MatchAt(Alternatives()[j], s).None?
  {
    TableAt(j);
    PatternOnlyAt10(j);
    var key := BanglaSigns[j].0;
    assert Alternatives()[j] == Literal(key);
    assert |key| >= 1 && (key[0] != VowelSignE || (|key| >= 2 && key[1] in {VowelSignAa, AuLengthMark, Candrabindu}));
  }

  /** The back-reference rule: the E-sign, any x other than the AA sign, the
      candrabindu and the length mark, then the length mark, become x followed
      by the AU sign. */
  lemma VowelSignRule(x: char, rest: string)
    requires x != VowelSignAa && x != Candrabindu && x != AuLengthMark
    ensures ReplaceUnicode([VowelSignE, x, AuLengthMark] + rest) == [x, VowelSignAu] + ReplaceUnicode(rest)
  {
    var alts := Alternatives();
    var s := [VowelSignE, x, AuLengthMark] + rest;
    var m := Match([VowelSignE, x, AuLengthMark], Some(x));
    TableAt(10);
    assert alts[10] == Bracketed(VowelSignE, AuLengthMark, AuLengthMark);
    assert s[..3] == m.text;
    assert MatchAt(alts[10], s) == Some(m);
    forall j | 0 <= j < 10
      ensures MatchAt(alts[j], s).None?
    {
      EarlierBranchMissesAtESign(s, j);
    }
    FirstMatchIs(alts, s, 10);
    PatternBranchValue(s);
    AlternativesNonEmpty();
    SubAtMatch(alts, Replacement, m, rest, 10);
  }

  /** The branches for the first ten keys are literal, with these texts. */
  lemma BanglaKeyAt(j: nat)
    requires j < 10
    ensures Alternatives()[j] == Literal(BanglaSigns[j].0)
    ensures j < 5 ==> |BanglaSigns[j].0| > 0 && BanglaSigns[j].0[0] != VowelSignE
    ensures j == 5 ==> BanglaSigns[j].0 == [VowelSignE, VowelSignAa]
    ensures j == 6 ==> BanglaSigns[j].0 == [VowelSignE, AuLengthMark]
    ensures j == 7 ==> |BanglaSigns[j].0| > 0 && BanglaSigns[j].0[0] != VowelSignE
  {
    TableAt(j);
    PatternOnlyAt10(j);
  }

  /** The literal entries win over the pattern where both apply: after the
      E-sign the AA sign gives the O sign, and a following length mark stays. */
  lemma AaSignBeforePattern(rest: string)
    ensures ReplaceUnicode([VowelSignE, VowelSignAa, AuLengthMark] + rest)
         == [VowelSignO] + ReplaceUnicode([AuLengthMark] + rest)
  {
    var key := [VowelSignE, VowelSignAa];
    var s := key + ([AuLengthMark] + rest);
    assert [VowelSignE, VowelSignAa, AuLengthMark] + rest == s;
    forall j | 0 <= j < 5
      ensures MatchAt(Alternatives()[j], s).None?
    {
      BanglaKeyAt(j);
    }
    TableAt(5);
    ChosenLiteral(key, [AuLengthMark] + rest, 5);
  }

  /** The candrabindu entry wins over the pattern and keeps the candrabindu
      after the AU sign. */
  lemma CandrabinduBeforePattern(rest: string)
    ensures ReplaceUnicode([VowelSignE, Candrabindu, AuLengthMark] + rest)
         == [VowelSignAu, Candrabindu] + ReplaceUnicode(rest)
  {
    var key := [VowelSignE, Candrabindu, AuLengthMark];
    forall j | 0 <= j < 8
      ensures MatchAt(Alternatives()[j], key + rest).None?
    {
      BanglaKeyAt(j);
      assert (key + rest)[0] == VowelSignE && (key + rest)[1] == Candrabindu;
    }
    TableAt(8);
    ChosenLiteral(key, rest, 8);
  }

  /** Where literal entry `k` is the first branch to match, its value
      replaces it. */
  lemma ChosenLiteral(key: string, rest: string, k: nat)
    requires k < |Table| && Table[k].0 == key && key != VowelSignPattern
    requires forall j :: 0 <= j < k ==> MatchAt(Alternatives()[j], key + rest).None?
    ensures ReplaceUnicode(key + rest) == Table[k].1 + ReplaceUnicode(rest)
  {
    var alts := Alternatives();
    var s := key + rest;
    var m := Match(key, None);
    assert alts[k] == Literal(key);
    assert MatchAt(alts[k], s) == Some(m);
    FirstMatchIs(alts, s, k);
    PatternOnlyAt10(k);
    LiteralBranchValue(s);
    AlternativesNonEmpty();
    SubAtMatch(alts, Replacement, m, rest, k);
  }

  /** Is `c` one of the fullwidth digits U+FF10..U+FF19? */
  predicate IsFullwidthDigit(c: char) {
    '\U{FF10}' <= c <= '\U{FF19}'
  }

  /** The ASCII digit a fullwidth digit stands for. */
  function AsciiDigit(c: char): (r: char)
    requires IsFullwidthDigit(c)
    ensures '0' <= r <= '9'
  {
    (c as int - 0xFF10 + '0' as int) as char
  }

  /** The ten digit entries, in order. */
  lemma DigitEntries(j: nat)
    requires j < |WideForms|
    ensures FirstDigitInSection <= j < FirstDigitInSection + 10 ==>
      |WideForms[j].0| == 1 && IsFullwidthDigit(WideForms[j].0[0]) &&
      WideForms[j].1 == [AsciiDigit(WideForms[j].0[0])] &&
      WideForms[j].0[0] as int - 0xFF10 == j - FirstDigitInSection
  {
  }

  /** No key before the digit entries starts with a fullwidth digit. */
  lemma NoDigitKeysBefore()
    ensures NoKeyStartsIn(BanglaSigns, '\U{FF10}', '\U{FF19}')
    ensures NoKeyStartsIn(SpacesAndQuotes, '\U{FF10}', '\U{FF19}')
    ensures NoKeyStartsIn(WideForms[..FirstDigitInSection], '\U{FF10}', '\U{FF19}')
  {
    NoBanglaKeyStartsAscii();
    NoSpacesKeyStartsBeyond();
    NoDigitKeysBeforeInWideForms();
  }

  /** No key of the second section starts beyond U+3000. */
  lemma NoSpacesKeyStartsBeyond()
    ensures NoKeyStartsIn(SpacesAndQuotes, '\U{3000}', '\U{10FFFF}')
  {
  }

  lemma NoDigitKeysBeforeInWideForms()
    ensures NoKeyStartsIn(WideForms[..FirstDigitInSection], '\U{FF10}', '\U{FF19}')
  {
  }

  /** Every key before the digit's own entry starts with another code point. */
  lemma DigitKeyDiffers(c: char, j: nat)
    requires IsFullwidthDigit(c) && j < FirstDigitEntry + (c as int - 0xFF10)
    ensures j < |Table| && |Table[j].0| > 0 && Table[j].0[0] != c
  {
    TableAt(j);
    NoDigitKeysBefore();
    BanglaSignsArePlain();
    SpacesAndQuotesArePlain();
    WideFormsArePlain();
    if 31 <= j < 31 + FirstDigitInSection {
      assert WideForms[..FirstDigitInSection][j - 31] == WideForms[j - 31];
    } else if 31 + FirstDigitInSection <= j {
      DigitEntries(j - 31);
    }
  }

  /** No branch before the digit's own entry matches at a fullwidth digit. */
  lemma DigitMissesEarlierKey(c: char, rest: string, j: nat)
    requires IsFullwidthDigit(c) && j < FirstDigitEntry + (c as int - 0xFF10)
    ensures MatchAt(Alternatives()[j], [c] + rest).None?
  {
    DigitKeyDiffers(c, j);
    var key := Table[j].0;
    assert Alternatives()[j] == Compile(key);
    if key != VowelSignPattern {
      assert !(key <= [c] + rest) by {
        assert ([c] + rest)[0] == c;
      }
    }
  }

  /** A fullwidth digit becomes its ASCII digit. */
  lemma FullwidthDigit(c: char, rest: string)
    requires IsFullwidthDigit(c)
    ensures ReplaceUnicode([c] + rest) == [AsciiDigit(c)] + ReplaceUnicode(rest)
  {
    var alts := Alternatives();
    var d := c as int - 0xFF10;
    var k := FirstDigitEntry + d;
    TableAt(k);
    DigitEntries(FirstDigitInSection + d);
    assert Table[k].0 == [c];
    NoDigitKeysBefore();
    forall j | 0 <= j < k
      ensures MatchAt(alts[j], [c] + rest).None?
    {
      DigitMissesEarlierKey(c, rest, j);
    }
    ChosenLiteral([c], rest, k);
  }

  /** Text made of fullwidth digits comes out as the same digits in ASCII. */
  lemma {:induction false} FullwidthDigits(s: string)
    requires forall i :: 0 <= i < |s| ==> IsFullwidthDigit(s[i])
    ensures |ReplaceUnicode(s)| == |s|
    ensures forall i :: 0 <= i < |s| ==> ReplaceUnicode(s)[i] == AsciiDigit(s[i])
  {
    if |s| > 0 {
      var tail := s[1..];
      assert s == [s[0]] + tail;
      FullwidthDigit(s[0], tail);
      FullwidthDigits(tail);
      var r := ReplaceUnicode(s);
      assert r == [AsciiDigit(s[0])] + ReplaceUnicode(tail);
      forall i | 0 <= i < |s|
        ensures r[i] == AsciiDigit(s[i])
      {
        if i > 0 {
          assert s[i] == tail[i - 1];
        }
      }
    }
  }

  /** Entries the alternation never selects, because an earlier single
      code-point key is a prefix of theirs: the doubled acute accent (line
      552, behind line 548) and the three entries starting with a no-break
      space (lines 554, 557 and 558, behind line 540). */
  lemma DeadEntries(s: string)
    ensures var h := FirstMatch(Alternatives(), s);
      h.None? || h.value.index !in {23, 25, 28, 29}
  {
    var alts := Alternatives();
    TableAt(19);
    TableAt(23);
    TableAt(11);
    TableAt(25);
    TableAt(28);
    TableAt(29);
    assert alts[19] == Literal(Table[19].0) && alts[23] == Literal(Table[23].0);
    Shadowed(alts, s, 19, 23);
    assert alts[11] == Literal(Table[11].0);
    assert alts[25] == Literal(Table[25].0);
    assert alts[28] == Literal(Table[28].0);
    assert alts[29] == Literal(Table[29].0);
    Shadowed(alts, s, 11, 25);
    Shadowed(alts, s, 11, 28);
    Shadowed(alts, s, 11, 29);
  }

  /** Every key starts with a code point outside ASCII. */
  lemma NoBanglaKeyStartsAscii()
    ensures NoKeyStartsIn(BanglaSigns, '\0', '\U{007F}')
  {
  }

  lemma NoSpacesKeyStartsAscii()
    ensures NoKeyStartsIn(SpacesAndQuotes, '\0', '\U{007F}')
  {
  }

  lemma NoWideKeyStartsAscii()
    ensures NoKeyStartsIn(WideForms, '\0', '\U{007F}')
  {
    forall k | 0 <= k < |WideForms|
      ensures |WideForms[k].0| == 0 || !('\0' <= WideForms[k].0[0] <= '\U{007F}')
    {
    }
  }

  /** Every key starts outside ASCII. */
  lemma KeyStartsBeyondAscii(j: nat)
    requires j < |Table|
    ensures |Table[j].0| > 0 && !IsAscii(Table[j].0[0])
  {
    TableAt(j);
    BanglaSignsArePlain();
    SpacesAndQuotesArePlain();
    WideFormsArePlain();
    if j < 11 {
      NoBanglaKeyStartsAscii();
    } else if j < 31 {
      NoSpacesKeyStartsAscii();
    } else {
      NoWideKeyStartsAscii();
    }
  }

  /** No branch matches at an ASCII code point. */
  lemma NoMatchAtAscii(s: string, j: nat)
    requires |s| > 0 && IsAscii(s[0]) && j < |Table|
    ensures MatchAt(Alternatives()[j], s).None?
  {
    KeyStartsBeyondAscii(j);
    var key := Table[j].0;
    assert Alternatives()[j] == Compile(key);
  }

  /** ASCII text passes through the substitution unchanged. */
  lemma AsciiUnchanged(s: string)
    requires forall i :: 0 <= i < |s| ==> IsAscii(s[i])
    ensures ReplaceUnicode(s) == s
  {
    var alts := Alternatives();
    forall i | 0 <= i < |s|
      ensures FirstMatch(alts, s[i..]).None?
    {
      forall j | 0 <= j < |alts|
        ensures MatchAt(alts[j], s[i..]).None?
      {
        NoMatchAtAscii(s[i..], j);
      }
    }
    UnmatchedUnchanged(s);
  }
}
