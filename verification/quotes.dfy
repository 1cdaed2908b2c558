/** Quote folding (`fix_quotes`): every single-quote variant becomes the ASCII
    apostrophe, then every double-quote variant becomes the ASCII double quote. */
module Quotes {
  import opened Wrappers
  import opened Alternation

  /** The branches of the single-quote pattern, in order. The apostrophe occurs
      four times and is replaced by itself. */
  const SingleQuotes: seq<string> := [
    "'", "\U{201B}", "'", "\U{275B}", "\U{275C}", "`", "\U{00B4}", "'", "'"
  ]

  /** The one multi-code-point element of the double-quote list: comma, space,
      double quote, high reversed-9 quotation mark, double quote, comma, space.
      It is matched as a whole; the mark on its own is not folded. */
  const QuotedReversedNine: string := ", \"\U{201F}\", "

  /** The branches of the double-quote pattern, in order. */
  const DoubleQuotes: seq<string> := [
    "\U{00AB}", "\U{2039}", "\U{00BB}", "\U{203A}", "\U{201E}", QuotedReversedNine,
    "\U{275D}", "\U{275E}", "\U{276E}", "\U{276F}", "\U{301D}", "\U{301E}", "\U{301F}", "\U{FF02}"
  ]

  /** Single code points the first pass folds into the apostrophe. */
  predicate IsSingleQuoteVariant(c: char) {
    c in {'\U{201B}', '\U{275B}', '\U{275C}', '`', '\U{00B4}'}
  }

  /** Single code points the second pass folds into the double quote. */
  predicate IsDoubleQuoteVariant(c: char) {
    c in {'\U{00AB}', '\U{2039}', '\U{00BB}', '\U{203A}', '\U{201E}',
          '\U{275D}', '\U{275E}', '\U{276E}', '\U{276F}', '\U{301D}', '\U{301E}', '\U{301F}', '\U{FF02}'}
  }

  /** A pattern that is the alternation of plain strings. */
  function Literals(xs: seq<string>): (alts: seq<Alt>)
    ensures |alts| == |xs|
    ensures forall i :: 0 <= i < |xs| ==> alts[i] == Literal(xs[i])
  {
    seq(|xs|, i requires 0 <= i < |xs| => Literal(xs[i]))
  }

  /** A replacement that ignores the match. */
  function Always(t: string): (f: Match -> string)
    ensures forall m :: f(m) == t
  {
    m => t
  }

  lemma SingleQuotesNonEmpty()
    ensures NonEmpty(Literals(SingleQuotes))
  {
  }

  lemma DoubleQuotesNonEmpty()
    ensures NonEmpty(Literals(DoubleQuotes))
  {
  }

  /** A literal pass that emits only `out` removes each one-code-point branch
      and adds nothing but `out`. */
  lemma LiteralPassAvoids(xs: seq<string>, out: string, s: string)
    requires NonEmpty(Literals(xs))
    ensures forall c :: [c] in xs && c !in out ==> c !in Sub(Literals(xs), Always(out), s)
    ensures forall c :: c !in s && c !in out ==> c !in Sub(Literals(xs), Always(out), s)
  {
    var alts := Literals(xs);
    forall c | [c] in xs && c !in out
      ensures c !in Sub(alts, Always(out), s)
    {
      var k :| 0 <= k < |xs| && xs[k] == [c];
      assert alts[k] == Literal([c]);
      SubAvoids(alts, Always(out), s, c);
    }
    forall c | c !in s && c !in out
      ensures c !in Sub(alts, Always(out), s)
    {
      SubAvoids(alts, Always(out), s, c);
    }
  }

  /** The single-quote variants are exactly the one-code-point branches other
      than the apostrophe; likewise for the double-quote variants. */
  lemma SingleVariantsAreBranches()
    ensures forall c :: IsSingleQuoteVariant(c) <==> [c] in SingleQuotes && c !in "'"
  {
  }

  lemma DoubleVariantsAreBranches()
    ensures forall c :: IsDoubleQuoteVariant(c) <==> [c] in DoubleQuotes
  {
  }

  /** `SINGLE_QUOTE_REGEX.sub("'", text)`. */
  function FoldSingle(s: string): (r: string)
    ensures forall c :: IsSingleQuoteVariant(c) ==> c !in r
    ensures forall c :: c !in s && c != '\'' ==> c !in r
  {
    SingleQuotesNonEmpty();
    LiteralPassAvoids(SingleQuotes, "'", s);
    SingleVariantsAreBranches();
    Sub(Literals(SingleQuotes), Always("'"), s)
  }

  lemma DoubleVariantsAreFolded()
    ensures forall c :: IsDoubleQuoteVariant(c) ==> [c] in DoubleQuotes && c !in "\""
  {
  }

  /** `DOUBLE_QUOTE_REGEX.sub('"', text)`. */
  function FoldDouble(s: string): (r: string)
    ensures forall c :: IsDoubleQuoteVariant(c) ==> c !in r
    ensures forall c :: c !in s && c != '"' ==> c !in r
  {
    DoubleQuotesNonEmpty();
    LiteralPassAvoids(DoubleQuotes, "\"", s);
    DoubleVariantsAreFolded();
    Sub(Literals(DoubleQuotes), Always("\""), s)
  }

  /** `fix_quotes`: no one-code-point quote variant of either kind is left,
      and no code point appears that was not in the input, except the two
      ASCII quotes. The seven-code-point element may remain (ElementRebuilt). */
  function FixQuotes(s: string): (r: string)
    ensures forall c :: IsSingleQuoteVariant(c) || IsDoubleQuoteVariant(c) ==> c !in r
    ensures forall c :: c !in s && c != '\'' && c != '"' ==> c !in r
  {
    FoldDouble(FoldSingle(s))
  }

  /** What the two passes do to one code point away from a comma. */
  function QuoteFold(c: char): char {
    if IsSingleQuoteVariant(c) then '\''
    else if IsDoubleQuoteVariant(c) then '"'
    else c
  }

  /** The only ASCII code point either pass changes is the backtick. */
  lemma AsciiFoldKept(c: char)
    requires c as int < 128 && c != '`'
    ensures QuoteFold(c) == c
  {
  }

  /** Every single-quote branch is one code point. */
  lemma SingleBranchesAreCodePoints()
    ensures forall i :: 0 <= i < |SingleQuotes| ==> |SingleQuotes[i]| == 1
  {
  }

  /** Every double-quote branch but the comma-led one is one code point. */
  lemma DoubleBranchesAreCodePoints()
    ensures forall i :: 0 <= i < |DoubleQuotes| && i != 5 ==> |DoubleQuotes[i]| == 1
    ensures DoubleQuotes[5] == QuotedReversedNine && QuotedReversedNine[0] == ','
  {
  }

  /** The branches before the comma-led one do not start with a comma. */
  lemma NoCommaBefore()
    ensures forall j :: 0 <= j < 5 ==> |DoubleQuotes[j]| == 1 && DoubleQuotes[j][0] != ','
  {
  }

  /** A single-quote match covers one code point: a variant or the apostrophe. */
  lemma SingleMatchIsQuote(c: char, rest: string)
    requires FirstMatch(Literals(SingleQuotes), [c] + rest).Some?
    ensures FirstMatch(Literals(SingleQuotes), [c] + rest).value.m.text == [c]
    ensures IsSingleQuoteVariant(c) || c == '\''
  {
    var h := FirstMatch(Literals(SingleQuotes), [c] + rest).value;
    SingleBranchesAreCodePoints();
    assert h.m.text == SingleQuotes[h.index] && h.m.text <= [c] + rest;
    assert h.m.text == [c];
    SingleVariantsAreBranches();
  }

  /** Where no single-quote branch matches, the code point is no variant. */
  lemma SingleMissIsPlain(c: char, rest: string)
    requires FirstMatch(Literals(SingleQuotes), [c] + rest).None?
    ensures !IsSingleQuoteVariant(c)
  {
    var alts := Literals(SingleQuotes);
    forall k | 0 <= k < |SingleQuotes|
      ensures SingleQuotes[k] != [c]
    {
      assert MatchAt(alts[k], [c] + rest).None?;
    }
    SingleVariantsAreBranches();
  }

  /** The first pass, one code point at a time. */
  lemma FoldSingleStep(c: char, rest: string)
    ensures FoldSingle([c] + rest) == [if IsSingleQuoteVariant(c) then '\'' else c] + FoldSingle(rest)
  {
    var alts := Literals(SingleQuotes);
    SingleQuotesNonEmpty();
    match FirstMatch(alts, [c] + rest)
    case Some(h) =>
      SingleMatchIsQuote(c, rest);
      SubAtMatch(alts, Always("'"), h.m, rest, h.index);
    case None =>
      SingleMissIsPlain(c, rest);
      SubAtMiss(alts, Always("'"), c, rest);
  }

  /** Where the comma-led element does not start, a double-quote match covers
      one variant. */
  lemma DoubleMatchIsVariant(c: char, rest: string)
    requires !(QuotedReversedNine <= [c] + rest) && FirstMatch(Literals(DoubleQuotes), [c] + rest).Some?
    ensures FirstMatch(Literals(DoubleQuotes), [c] + rest).value.m.text == [c]
    ensures IsDoubleQuoteVariant(c)
  {
    var h := FirstMatch(Literals(DoubleQuotes), [c] + rest).value;
    DoubleBranchesAreCodePoints();
    assert h.m.text == DoubleQuotes[h.index] && h.m.text <= [c] + rest;
    assert h.index != 5;
    assert h.m.text == [c];
    DoubleVariantsAreBranches();
  }

  /** Where no double-quote branch matches, the code point is no variant. */
  lemma DoubleMissIsPlain(c: char, rest: string)
    requires FirstMatch(Literals(DoubleQuotes), [c] + rest).None?
    ensures !IsDoubleQuoteVariant(c)
  {
    var alts := Literals(DoubleQuotes);
    forall k | 0 <= k < |DoubleQuotes|
      ensures DoubleQuotes[k] != [c]
    {
      assert MatchAt(alts[k], [c] + rest).None?;
    }
    DoubleVariantsAreBranches();
  }

  /** The second pass, one code point at a time, where the comma-led element
      does not start. */
  lemma FoldDoubleStep(c: char, rest: string)
    requires !(QuotedReversedNine <= [c] + rest)
    ensures FoldDouble([c] + rest) == [if IsDoubleQuoteVariant(c) then '"' else c] + FoldDouble(rest)
  {
    var alts := Literals(DoubleQuotes);
    DoubleQuotesNonEmpty();
    match FirstMatch(alts, [c] + rest)
    case Some(h) =>
      DoubleMatchIsVariant(c, rest);
      SubAtMatch(alts, Always("\""), h.m, rest, h.index);
    case None =>
      DoubleMissIsPlain(c, rest);
      SubAtMiss(alts, Always("\""), c, rest);
  }

  /** The first pass maps each code point on its own. */
  lemma {:induction false} FoldSingleMaps(s: string)
    ensures |FoldSingle(s)| == |s|
    ensures forall i :: 0 <= i < |s| ==>
      FoldSingle(s)[i] == if IsSingleQuoteVariant(s[i]) then '\'' else s[i]
  {
    if |s| > 0 {
      assert s == [s[0]] + s[1..];
      FoldSingleStep(s[0], s[1..]);
      FoldSingleMaps(s[1..]);
    }
  }

  /** Text without the high reversed-9 quotation mark does not start with the
      comma-led element, which holds one. */
  lemma NoMarkNoElement(s: string)
    requires '\U{201F}' !in s
    ensures !(QuotedReversedNine <= s)
  {
    assert QuotedReversedNine[3] == '\U{201F}';
    if 3 < |s| {
      assert s[3] in s;
    }
  }

  /** The second pass maps each code point on its own in text without the
      high reversed-9 quotation mark (so without the comma-led element). */
  lemma {:induction false} FoldDoubleMaps(s: string)
    requires '\U{201F}' !in s
    ensures |FoldDouble(s)| == |s|
    ensures forall i :: 0 <= i < |s| ==>
      FoldDouble(s)[i] == if IsDoubleQuoteVariant(s[i]) then '"' else s[i]
  {
    if |s| > 0 {
      assert s == [s[0]] + s[1..];
      NoMarkNoElement(s);
      FoldDoubleStep(s[0], s[1..]);
      FoldDoubleMaps(s[1..]);
    }
  }

  /** Without the high reversed-9 quotation mark, quote folding is a
      code-point-by-code-point map: each single-quote variant becomes the
      apostrophe, each double-quote variant the double quote, and every other
      code point stays. */
  lemma FixQuotesMaps(s: string)
    requires '\U{201F}' !in s
    ensures |FixQuotes(s)| == |s|
    ensures forall i :: 0 <= i < |s| ==> FixQuotes(s)[i] == QuoteFold(s[i])
  {
    FoldSingleMaps(s);
    var t := FoldSingle(s);
    assert '\U{201F}' !in t;
    FoldDoubleMaps(t);
  }

  /** The first pass copies text that holds no single-quote branch. */
  lemma FoldSingleCopies(t: string, rest: string)
    requires forall i :: 0 <= i < |t| ==> !IsSingleQuoteVariant(t[i])
    ensures FoldSingle(t + rest) == t + FoldSingle(rest)
  {
    var s := t + rest;
    FoldSingleMaps(s);
    FoldSingleMaps(rest);
    var folded := FoldSingle(s);
    var expected := t + FoldSingle(rest);
    forall i | 0 <= i < |s|
      ensures folded[i] == expected[i]
    {
      if i < |t| {
        assert s[i] == t[i];
      } else {
        assert s[i] == rest[i - |t|];
      }
    }
  }

  /** The comma-led element holds no single-quote variant. */
  lemma NoSingleVariantInElement()
    ensures forall i :: 0 <= i < |QuotedReversedNine| ==> !IsSingleQuoteVariant(QuotedReversedNine[i])
  {
  }

  /** The second pass replaces the comma-led element as a whole. */
  lemma FoldDoubleElement(u: string)
    ensures FoldDouble(QuotedReversedNine + u) == "\"" + FoldDouble(u)
  {
    var alts := Literals(DoubleQuotes);
    var s := QuotedReversedNine + u;
    DoubleQuotesNonEmpty();
    NoCommaBefore();
    assert alts[5] == Literal(QuotedReversedNine);
    assert MatchAt(alts[5], s) == Some(Match(QuotedReversedNine, None));
    forall j | 0 <= j < 5
      ensures MatchAt(alts[j], s).None?
    {
      assert s[0] == ',';
    }
    FirstMatchIs(alts, s, 5);
    SubAtMatch(alts, Always("\""), Match(QuotedReversedNine, None), u, 5);
  }

  /** The comma-led element of the double-quote list folds as a whole into one
      double quote. */
  lemma QuotedReversedNineFolds(rest: string)
    ensures FixQuotes(QuotedReversedNine + rest) == "\"" + FixQuotes(rest)
  {
    NoSingleVariantInElement();
    FoldSingleCopies(QuotedReversedNine, rest);
    FoldDoubleElement(FoldSingle(rest));
  }

  /** The high reversed-9 quotation mark on its own is not a branch of
      either pattern, so it passes through both. */
  lemma LoneReversedNineKept(rest: string)
    ensures FixQuotes(['\U{201F}'] + rest) == ['\U{201F}'] + FixQuotes(rest)
  {
    FoldSingleStep('\U{201F}', rest);
    assert QuotedReversedNine[0] == ',';
    FoldDoubleStep('\U{201F}', FoldSingle(rest));
  }

  /** The second pass maps each code point on its own in text where the
      comma-led element starts nowhere. */
  lemma {:induction false} FoldDoubleMapsAway(s: string)
    requires forall i :: 0 <= i < |s| ==> !(QuotedReversedNine <= s[i..])
    ensures |FoldDouble(s)| == |s|
    ensures forall i :: 0 <= i < |s| ==>
      FoldDouble(s)[i] == if IsDoubleQuoteVariant(s[i]) then '"' else s[i]
  {
    if |s| > 0 {
      assert s == [s[0]] + s[1..] && s[0..] == s;
      FoldDoubleStep(s[0], s[1..]);
      forall i | 0 <= i < |s[1..]|
        ensures !(QuotedReversedNine <= s[1..][i..])
      {
        assert s[1..][i..] == s[i + 1..];
      }
      FoldDoubleMapsAway(s[1..]);
    }
  }

  /** The parts of a rebuilt element hold no single-quote variant, so the
      first pass keeps them. */
  lemma FoldSingleKeepsParts(s: string)
    requires |s| == 7 && IsDoubleQuoteVariant(s[2]) && IsDoubleQuoteVariant(s[4])
    requires s[0] == ',' && s[1] == ' ' && s[3] == '\U{201F}' && s[5] == ',' && s[6] == ' '
    ensures FoldSingle(s) == s
  {
    assert s + "" == s;
    FoldSingleMaps("");
    FoldSingleCopies(s, "");
  }

  /** The comma-led element starts nowhere in its rebuilt parts. */
  lemma PartsHoldNoElement(s: string)
    requires |s| == 7 && IsDoubleQuoteVariant(s[2])
    ensures forall i :: 0 <= i < |s| ==> !(QuotedReversedNine <= s[i..])
  {
    forall i | 0 <= i < |s|
      ensures !(QuotedReversedNine <= s[i..])
    {
      if i == 0 {
        assert s[i..][2] != QuotedReversedNine[2];
      } else {
        assert |s[i..]| < |QuotedReversedNine|;
      }
    }
  }

  /** The second pass folds the two variants of a rebuilt element and keeps
      the rest. */
  lemma FoldDoubleRebuilds(s: string)
    requires |s| == 7 && IsDoubleQuoteVariant(s[2]) && IsDoubleQuoteVariant(s[4])
    requires s[0] == ',' && s[1] == ' ' && s[3] == '\U{201F}' && s[5] == ',' && s[6] == ' '
    ensures FoldDouble(s) == QuotedReversedNine
  {
    PartsHoldNoElement(s);
    FoldDoubleMapsAway(s);
    var r := FoldDouble(s);
    assert r[0] == ',' && r[1] == ' ' && r[2] == '"' && r[3] == '\U{201F}';
    assert r[4] == '"' && r[5] == ',' && r[6] == ' ';
  }

  /** The comma-led element can be rebuilt: with one-code-point double-quote
      variants (say U+201E) around the high reversed-9 mark, the second pass
      folds each of them into `"` and keeps the lone U+201F, so the element
      comes out of `fix_quotes` although it was not in the input. */
  lemma ElementRebuilt(s: string)
    requires |s| == 7 && IsDoubleQuoteVariant(s[2]) && IsDoubleQuoteVariant(s[4])
    requires s[0] == ',' && s[1] == ' ' && s[3] == '\U{201F}' && s[5] == ',' && s[6] == ' '
    ensures FixQuotes(s) == QuotedReversedNine
  {
    FoldSingleKeepsParts(s);
    FoldDoubleRebuilds(s);
  }
}
