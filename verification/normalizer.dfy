/** The `normalize` driver and `process_extracted_text`. The stages that call
    into libraries (encoding repair, the URL, punctuation and emoji regexes,
    Unicode normalization and lower-casing) are parameters; the model fixes
    where each runs and when it is skipped. */
module Normalizer {
  import opened Wrappers
  import opened Text
  import Whitespace
  import Quotes
  import CharTable
  import UnicodeTable
  import Noise

  /** The library calls the pipeline makes. */
  datatype Library = Library(
    /** `fix_text(text, normalization="NFC", explain=False)` */
    fixText: string -> string,
    /** `URL_HANDLER_REGEX.sub(replacement, text)`, text first */
    subUrls: (string, string) -> string,
    /** `PUNCT_HANDLER_REGEX.sub(replacement, text)` */
    subPunct: (string, string) -> string,
    /** `EMOJI_HANDLER_REGEX.sub(replacement, text)` */
    subEmoji: (string, string) -> string,
    /** `unicodedata.normalize(form, text)`, text first */
    unicodeNormalize: (string, string) -> string,
    /** `str.lower` */
    lower: string -> string)

  /** The keyword arguments of `normalize`; `None` skips a stage. */
  datatype Options = Options(
    unicodeNorm: string,
    punctReplacement: Option<string>,
    urlReplacement: Option<string>,
    emojiReplacement: Option<string>,
    applyUnicodeNormLast: bool)

  /** The defaults of `normalize`: NFKC, every replacement a single space, and
      Unicode normalization after the multi-character pass. */
  const Defaults: Options := Options("NFKC", Some(" "), Some(" "), Some(" "), true)

  /** A substitution stage that runs only when it has a replacement. */
  function SubWhenSet(sub: (string, string) -> string, replacement: Option<string>, s: string): string {
    match replacement
    case None => s
    case Some(x) => sub(s, x)
  }

  /** The stages before the final whitespace clean-up, in the order of the
      source: encoding repair, quotes, URLs, punctuation, emoji, the
      character table, then the multi-character pass with Unicode
      normalization before or after it. */
  function Stages(lib: Library, text: string, opts: Options): string {
    var fixed := Quotes.FixQuotes(lib.fixText(text));
    var noUrls := SubWhenSet(lib.subUrls, opts.urlReplacement, fixed);
    var noPunct := SubWhenSet(lib.subPunct, opts.punctReplacement, noUrls);
    var noEmoji := SubWhenSet(lib.subEmoji, opts.emojiReplacement, noPunct);
    var folded := CharTable.Translate(noEmoji);
    var early := if opts.applyUnicodeNormLast then folded else lib.unicodeNormalize(folded, opts.unicodeNorm);
    var replaced := UnicodeTable.ReplaceUnicode(early);
    if opts.applyUnicodeNormLast then lib.unicodeNormalize(replaced, opts.unicodeNorm) else replaced
  }

  /** The stages of `normalize` before the whitespace clean-up. */
  datatype Stage =
    | RepairEncoding
    | FoldQuotes
    | ReplaceUrls
    | ReplacePunct
    | ReplaceEmoji
    | TranslateChars
    | NormalizeForm
    | ReplaceSequences

  /** Which stages run for `opts`, in the order they run: a substitution
      stage only when it has a replacement, and Unicode normalization either
      just before or just after the multi-character pass. */
  function Order(opts: Options): seq<Stage> {
    Substitutions(opts) + Tables(opts)
  }

  /** Encoding repair, quote folding and the substitution stages that have a
      replacement, in source order. */
  function Substitutions(opts: Options): seq<Stage> {
    [RepairEncoding, FoldQuotes]
    + (if opts.urlReplacement.Some? then [ReplaceUrls] else [])
    + (if opts.punctReplacement.Some? then [ReplacePunct] else [])
    + (if opts.emojiReplacement.Some? then [ReplaceEmoji] else [])
  }

  /** The table passes, with Unicode normalization placed by the flag. */
  function Tables(opts: Options): seq<Stage> {
    if opts.applyUnicodeNormLast then [TranslateChars, ReplaceSequences, NormalizeForm]
    else [TranslateChars, NormalizeForm, ReplaceSequences]
  }

  /** Encoding repair and quote folding always come first. */
  lemma OrderStarts(opts: Options)
    ensures var order := Order(opts);
      |order| >= 5 && order[0] == RepairEncoding && order[1] == FoldQuotes
  {
  }

  /** A substitution stage is in the order exactly when it has a
      replacement. */
  lemma OrderSubstitutesWhenSet(opts: Options)
    ensures ReplaceUrls in Order(opts) <==> opts.urlReplacement.Some?
    ensures ReplacePunct in Order(opts) <==> opts.punctReplacement.Some?
    ensures ReplaceEmoji in Order(opts) <==> opts.emojiReplacement.Some?
  {
    var subs, tables := Substitutions(opts), Tables(opts);
    assert Order(opts) == subs + tables;
    assert ReplaceUrls !in tables && ReplacePunct !in tables && ReplaceEmoji !in tables;
  }

  /** Unicode normalization is the last stage exactly when the flag is set. */
  lemma OrderNormalizesLast(opts: Options)
    ensures var order := Order(opts);
      |order| > 0 && (order[|order| - 1] == NormalizeForm <==> opts.applyUnicodeNormLast)
  {
    var order := Order(opts);
    assert order[|order| - 1] == Tables(opts)[2];
  }

  /** No stage runs twice. */
  lemma OrderNoRepeats(opts: Options)
    ensures var order := Order(opts);
      forall i, j :: 0 <= i < j < |order| ==> order[i] != order[j]
  {
  }

  /** Every substitution stage runs before both table passes, and the
      character table before the multi-character pass. */
  lemma OrderSubstitutionsFirst(opts: Options)
    ensures var order := Order(opts);
      forall i, j :: 0 <= i < |order| && 0 <= j < |order| && IsSubstitution(order[i]) && IsTablePass(order[j]) ==> i < j
    ensures var order := Order(opts);
      forall i, j :: 0 <= i < |order| && 0 <= j < |order| && order[i] == TranslateChars && order[j] == ReplaceSequences ==> i < j
  {
  }

  predicate IsSubstitution(stage: Stage) {
    stage == ReplaceUrls || stage == ReplacePunct || stage == ReplaceEmoji
  }

  predicate IsTablePass(stage: Stage) {
    stage == TranslateChars || stage == ReplaceSequences
  }

  /** One stage. The two table passes are parameters: the pipeline runs
      `CharTable.Translate` and `UnicodeTable.ReplaceUnicode`, and a step can
      be followed without looking inside either table. */
  function RunStage(lib: Library, opts: Options, translate: string -> string, replace: string -> string,
                    stage: Stage, s: string): string {
    match stage
    case RepairEncoding => lib.fixText(s)
    case FoldQuotes => Quotes.FixQuotes(s)
    case ReplaceUrls => SubWhenSet(lib.subUrls, opts.urlReplacement, s)
    case ReplacePunct => SubWhenSet(lib.subPunct, opts.punctReplacement, s)
    case ReplaceEmoji => SubWhenSet(lib.subEmoji, opts.emojiReplacement, s)
    case TranslateChars => translate(s)
    case NormalizeForm => lib.unicodeNormalize(s, opts.unicodeNorm)
    case ReplaceSequences => replace(s)
  }

  /** The stages of `order`, first to last, each run by `step`. */
  function RunAll(step: (Stage, string) -> string, order: seq<Stage>, s: string): string
    decreases |order|
  {
    if |order| == 0 then s else RunAll(step, order[1..], step(order[0], s))
  }

  /** Running two lists of stages is running their concatenation. */
  lemma {:induction false} RunAllAppend(step: (Stage, string) -> string, xs: seq<Stage>, ys: seq<Stage>, s: string)
    ensures RunAll(step, xs + ys, s) == RunAll(step, ys, RunAll(step, xs, s))
    decreases |xs|
  {
    if |xs| > 0 {
      assert (xs + ys)[1..] == xs[1..] + ys;
      RunAllAppend(step, xs[1..], ys, step(xs[0], s));
    } else {
      assert xs + ys == ys;
    }
  }

  /** Zero or one stage. */
  lemma RunAtMostOne(step: (Stage, string) -> string, xs: seq<Stage>, s: string)
    requires |xs| <= 1
    ensures RunAll(step, xs, s) == if |xs| == 0 then s else step(xs[0], s)
  {
    if |xs| == 1 {
      assert xs[1..] == [];
    }
  }

  /** Three stages, one after the other. */
  lemma RunThree(step: (Stage, string) -> string, x: Stage, y: Stage, z: Stage, s: string)
    ensures RunAll(step, [x, y, z], s) == step(z, step(y, step(x, s)))
  {
    calc {
      RunAll(step, [x, y, z], s);
      { assert [x, y, z][1..] == [y, z]; }
      RunAll(step, [y, z], step(x, s));
      { assert [y, z][1..] == [z]; }
      RunAll(step, [z], step(y, step(x, s)));
      { RunAtMostOne(step, [z], step(y, step(x, s))); }
      step(z, step(y, step(x, s)));
    }
  }

  /** The pipeline runs exactly the stages of `Order`, in that order. */
  lemma StagesFollowOrder(lib: Library, text: string, opts: Options)
    ensures Stages(lib, text, opts) == RunAll((st, x) => RunStage(lib, opts, CharTable.Translate, UnicodeTable.ReplaceUnicode, st, x), Order(opts), text)
  {
    var tr, rp := CharTable.Translate, UnicodeTable.ReplaceUnicode;
    var step := (st, x) => RunStage(lib, opts, tr, rp, st, x);
    RunAllAppend(step, Substitutions(opts), Tables(opts), text);
    SubstitutionsRun(step, opts, text);
    TablesRun(step, opts, RunAll(step, Substitutions(opts), text));
    StageMeanings(lib, opts, tr, rp);
  }

  /** What each stage does to any text. */
  lemma StageMeanings(lib: Library, opts: Options, translate: string -> string, replace: string -> string)
    ensures forall x :: RunStage(lib, opts, translate, replace, RepairEncoding, x) == lib.fixText(x)
    ensures forall x :: RunStage(lib, opts, translate, replace, FoldQuotes, x) == Quotes.FixQuotes(x)
    ensures forall x :: RunStage(lib, opts, translate, replace, ReplaceUrls, x) == SubWhenSet(lib.subUrls, opts.urlReplacement, x)
    ensures forall x :: RunStage(lib, opts, translate, replace, ReplacePunct, x) == SubWhenSet(lib.subPunct, opts.punctReplacement, x)
    ensures forall x :: RunStage(lib, opts, translate, replace, ReplaceEmoji, x) == SubWhenSet(lib.subEmoji, opts.emojiReplacement, x)
    ensures forall x :: RunStage(lib, opts, translate, replace, TranslateChars, x) == translate(x)
    ensures forall x :: RunStage(lib, opts, translate, replace, NormalizeForm, x) == lib.unicodeNormalize(x, opts.unicodeNorm)
    ensures forall x :: RunStage(lib, opts, translate, replace, ReplaceSequences, x) == replace(x)
  {
  }

  /** The first part of the order: encoding repair, quote folding, then each
      substitution that has a replacement. */
  lemma SubstitutionsRun(step: (Stage, string) -> string, opts: Options, text: string)
    ensures var fixed := step(FoldQuotes, step(RepairEncoding, text));
      var noUrls := if opts.urlReplacement.Some? then step(ReplaceUrls, fixed) else fixed;
      var noPunct := if opts.punctReplacement.Some? then step(ReplacePunct, noUrls) else noUrls;
      RunAll(step, Substitutions(opts), text)
        == if opts.emojiReplacement.Some? then step(ReplaceEmoji, noPunct) else noPunct
  {
    var head: seq<Stage> := [RepairEncoding, FoldQuotes];
    var urls := if opts.urlReplacement.Some? then [ReplaceUrls] else [];
    var punct := if opts.punctReplacement.Some? then [ReplacePunct] else [];
    var emoji := if opts.emojiReplacement.Some? then [ReplaceEmoji] else [];
    RunAllAppend(step, head + urls + punct, emoji, text);
    RunAllAppend(step, head + urls, punct, text);
    RunAllAppend(step, head, urls, text);
    assert head[1..][1..] == [];
    var fixed := RunAll(step, head, text);
    RunAtMostOne(step, urls, fixed);
    var noUrls := RunAll(step, urls, fixed);
    RunAtMostOne(step, punct, noUrls);
    RunAtMostOne(step, emoji, RunAll(step, punct, noUrls));
  }

  /** The second part of the order: the character table, then the
      multi-character pass, with Unicode normalization before or after it. */
  lemma TablesRun(step: (Stage, string) -> string, opts: Options, s: string)
    ensures RunAll(step, Tables(opts), s)
      == if opts.applyUnicodeNormLast
         then step(NormalizeForm, step(ReplaceSequences, step(TranslateChars, s)))
         else step(ReplaceSequences, step(NormalizeForm, step(TranslateChars, s)))
  {
    if opts.applyUnicodeNormLast {
      RunThree(step, TranslateChars, ReplaceSequences, NormalizeForm, s);
    } else {
      RunThree(step, TranslateChars, NormalizeForm, ReplaceSequences, s);
    }
  }

  /** `normalize`: whatever the library stages return, the result has no
      whitespace at either end, no two adjacent whitespace characters, and
      every whitespace character in it is U+0020. */
  function Normalize(lib: Library, text: string, opts: Options): (r: string)
    ensures Whitespace.IsCanonical(r)
  {
    Whitespace.CollapseAndStrip(Stages(lib, text, opts))
  }

  /** The result is settled: running the final clean-up on it again changes
      nothing. */
  lemma NormalizeSettled(lib: Library, text: string, opts: Options)
    ensures Whitespace.CollapseAndStrip(Normalize(lib, text, opts)) == Normalize(lib, text, opts)
  {
    Whitespace.CanonicalIsFixpoint(Normalize(lib, text, opts));
  }

  /** A stage whose replacement is `None` is skipped: whatever the library
      would do there does not matter. */
  lemma SkippedStagesIgnored(lib: Library, other: Library, text: string, opts: Options)
    requires other.fixText == lib.fixText && other.unicodeNormalize == lib.unicodeNormalize
    requires opts.urlReplacement.Some? ==> other.subUrls == lib.subUrls
    requires opts.punctReplacement.Some? ==> other.subPunct == lib.subPunct
    requires opts.emojiReplacement.Some? ==> other.subEmoji == lib.subEmoji
    ensures Normalize(other, text, opts) == Normalize(lib, text, opts)
  {
  }

  /** Empty text stays empty when every library stage maps empty text to
      empty text. */
  lemma EmptyStaysEmpty(lib: Library, opts: Options)
    requires lib.fixText("") == ""
    requires forall x :: lib.subUrls("", x) == "" && lib.subPunct("", x) == "" && lib.subEmoji("", x) == ""
    requires lib.unicodeNormalize("", opts.unicodeNorm) == ""
    ensures Normalize(lib, "", opts) == ""
  {
    TablesKeepEmpty();
    assert SubWhenSet(lib.subUrls, opts.urlReplacement, "") == "";
    assert SubWhenSet(lib.subPunct, opts.punctReplacement, "") == "";
    assert SubWhenSet(lib.subEmoji, opts.emojiReplacement, "") == "";
    assert Stages(lib, "", opts) == "";
    CleanUpKeepsEmpty();
  }

  /** The final clean-up maps empty text to empty text. */
  lemma CleanUpKeepsEmpty()
    ensures Whitespace.CollapseAndStrip("") == ""
  {
    Whitespace.CanonicalIsFixpoint("");
  }

  /** The table stages map empty text to empty text. */
  lemma TablesKeepEmpty()
    ensures Quotes.FixQuotes("") == "" && CharTable.Translate("") == "" && UnicodeTable.ReplaceUnicode("") == ""
  {
    QuotesKeepPlainAscii("");
    TableKeepsAscii("");
    UnicodeTable.AsciiUnchanged("");
  }

  /** The table stages leave plain ASCII text alone, except that a backtick
      becomes an apostrophe; so with the substitution stages skipped and
      library stages that keep the text, only the whitespace clean-up acts. */
  lemma PlainAsciiOnlyCleaned(lib: Library, text: string, opts: Options)
    requires AllAscii(text) && '`' !in text
    requires lib.fixText(text) == text && lib.unicodeNormalize(text, opts.unicodeNorm) == text
    requires opts.urlReplacement.None? && opts.punctReplacement.None? && opts.emojiReplacement.None?
    ensures Normalize(lib, text, opts) == Whitespace.CollapseAndStrip(text)
  {
    QuotesKeepPlainAscii(text);
    TableKeepsAscii(text);
    UnicodeTable.AsciiUnchanged(text);
  }

  /** Quote folding keeps ASCII text without a backtick. */
  lemma QuotesKeepPlainAscii(s: string)
    requires AllAscii(s) && '`' !in s
    ensures Quotes.FixQuotes(s) == s
  {
    forall i | 0 <= i < |s|
      ensures s[i] != '\U{201F}'
    {
      assert IsAscii(s[i]);
    }
    Quotes.FixQuotesMaps(s);
    var r := Quotes.FixQuotes(s);
    forall i | 0 <= i < |s|
      ensures r[i] == s[i]
    {
      assert s[i] in s;
      Quotes.AsciiFoldKept(s[i]);
    }
  }

  /** The character table knows no ASCII code point. */
  lemma TableKeepsAscii(s: string)
    requires AllAscii(s)
    ensures CharTable.Translate(s) == s
  {
    forall i | 0 <= i < |s|
      ensures CharTable.Image(s[i]).None?
    {
      assert IsAscii(s[i]);
    }
    CharTable.TranslateUnmapped(s);
  }

  /** `process_extracted_text`: drop the noise items, join the rest with single
      spaces and normalize with the defaults. */
  method ProcessExtractedText(lib: Library, detectedText: seq<string>) returns (corpus: string)
    ensures corpus == Normalize(lib, Join(" ", Noise.Kept(Noise.Norms(lib.lower), lib.lower, detectedText)), Defaults)
    ensures Whitespace.IsCanonical(corpus)
  {
    var filtered, _ := Noise.FilterNoiseKeywords(lib.lower, detectedText);
    var cleanedCorpus := Join(" ", filtered);
    corpus := Normalize(lib, cleanedCorpus, Defaults);
  }

  /** When every item is noise, or there is none, the corpus is what
      `normalize("")` gives. */
  lemma AllNoiseGivesEmptyCorpus(lib: Library, detectedText: seq<string>)
    requires forall x :: x in detectedText ==> Noise.IsNoise(Noise.Norms(lib.lower), lib.lower, x)
    ensures Join(" ", Noise.Kept(Noise.Norms(lib.lower), lib.lower, detectedText)) == ""
  {
    var norms := Noise.Norms(lib.lower);
    var kept := Noise.Kept(norms, lib.lower, detectedText);
    if |kept| > 0 {
      Noise.KeptMembers(norms, lib.lower, detectedText, kept[0]);
      Noise.HitIffNoise(norms, lib.lower, kept[0]);
      assert false;
    }
  }
}
