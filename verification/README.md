# Text canonicalizer of the meme pipeline, in Dafny

This project models `text_normalizer.py`. That module turns the text fragments
found in a meme image into one canonical string, in three steps:

1. **Noise filtering.** `filter_noise_keywords` drops every fragment whose norm
   contains the norm of a watermark or branding keyword. The norm is the text
   lower-cased, with its spaces removed (`get_norm`). The drop is credited to the
   first such keyword in list order.
2. **Joining.** `process_extracted_text` joins the surviving fragments with
   single spaces.
3. **Normalization.** `normalize` runs a fixed sequence of stages on the joined
   text:
   - encoding repair;
   - quote folding (`fix_quotes`);
   - URL, punctuation and emoji substitution;
   - the per-code-point table `CHAR_REPLACEMENTS`;
   - optional Unicode normalization;
   - the multi-code-point table `UNICODE_REPLACEMENTS`, applied as one regex
     alternation whose pattern key has a back-reference;
   - a final whitespace collapse and strip.

Modules, one per part of the source:

| module | models |
|---|---|
| `Alternation` | `re.compile("|".join(keys)).sub(repl, text)` for literal branches and the one `a([^b])c` branch. The first branch in order wins; the scan resumes after the match. |
| `Quotes` | `SINGLE_QUOTE_REGEX`, `DOUBLE_QUOTE_REGEX` and `fix_quotes`. |
| `CharTable` | the dict behind `CHAR_REPLACEMENTS` and `str.translate`. |
| `UnicodeTable` | the ordered dict `UNICODE_REPLACEMENTS`, its compiled regex and the replacement lambda. |
| `Whitespace` | `WHITESPACE_HANDLER_REGEX.sub(" ", text).strip()`. |
| `Noise` | `NOISE_KEYWORDS`, `get_norm` and `filter_noise_keywords`. The `Counter` is modelled as one count per keyword, in list order. |
| `Normalizer` | `normalize` and `process_extracted_text`. |
| `Text`, `Wrappers` | string helpers and `Option`. |

Some stages call into libraries: `ftfy.fix_text`, the URL, `\p{punct}` and emoji
regexes, `unicodedata.normalize` and `str.lower`. They appear as function-valued
fields of `Normalizer.Library`, and `str.lower` as the `lower` parameter of the
`Noise` members. No property is assumed about them, except where a lemma names
one as a hypothesis.

## Model

| member | source | states |
|---|---|---|
| Alternation.FirstMatchFrom | text_normalizer.py:593 | The chosen branch matches, and no earlier branch does. With no match, no branch matches at all. |
| Alternation.FirstMatchIs | text_normalizer.py:593 | If branch k matches and every earlier branch misses, the engine picks k. |
| Alternation.Sub | text_normalizer.py:771-776 | If no branch matches at any position, `sub` returns the text unchanged. |
| Alternation.SubAtMatch | text_normalizer.py:771-776 | Where a branch is chosen, its replacement is emitted and the scan resumes right after the matched text. |
| Alternation.SubAtMiss | text_normalizer.py:771-776 | Where nothing matches, the code point is copied and the scan moves on by one. |
| Alternation.SubAvoids | text_normalizer.py:719-721 | A code point that is a branch of its own, or is absent from the input, and that no replacement produces, does not occur in the output. |
| Alternation.Shadowed | text_normalizer.py:593 | A literal branch that extends an earlier literal branch is never chosen. |
| Alternation.SubKeepsSelfReplacements | text_normalizer.py:719 | If every chosen match is replaced by its own text, the text is unchanged. |
| Quotes.FoldSingle | text_normalizer.py:719 | After the first pass no single-quote variant remains. The only new code point it can introduce is the apostrophe. |
| Quotes.FoldDouble | text_normalizer.py:720 | After the second pass no one-code-point double-quote variant remains. The only new code point it can introduce is `"`. |
| Quotes.FixQuotes | text_normalizer.py:717-721 | No one-code-point quote variant of either list remains. Apart from `'` and `"`, no code point appears that was absent from the input. |
| Quotes.FoldSingleStep | text_normalizer.py:719 | The first pass acts on each code point independently: a variant becomes `'`, anything else is kept. |
| Quotes.FoldDoubleStep | text_normalizer.py:720 | Where the comma-led element does not start, the second pass acts on each code point independently. |
| Quotes.FoldSingleMaps | text_normalizer.py:719 | The first pass preserves length and maps position i to the fold of code point i. |
| Quotes.FoldDoubleMaps | text_normalizer.py:720 | On text without U+201F, the second pass preserves length and maps each position on its own. |
| Quotes.FixQuotesMaps | text_normalizer.py:717-721 | On text without U+201F, `fix_quotes` is the code-point map `QuoteFold`, with the length unchanged. |
| Quotes.FoldSingleCopies | text_normalizer.py:719 | A prefix containing no single-quote variant passes through the first pass untouched. |
| Quotes.FoldDoubleElement | text_normalizer.py:604 | The second pass replaces the element `, "‟", ` as a whole with one `"`. |
| Quotes.QuotedReversedNineFolds | text_normalizer.py:604 | `fix_quotes` turns the seven-code-point element `, "‟", ` into a single `"`. |
| Quotes.LoneReversedNineKept | text_normalizer.py:717-721 | A lone U+201F is not a branch of either pattern, so it passes through `fix_quotes` unchanged. |
| Quotes.FoldDoubleMapsAway | text_normalizer.py:720 | Where the comma-led element starts at no position, the second pass preserves length and maps each position on its own. |
| Quotes.FoldDoubleRebuilds | text_normalizer.py:720 | Two one-code-point double-quote variants around a lone U+201F, framed by `, ` as in the element, become exactly the element `, "‟", `. |
| Quotes.ElementRebuilt | text_normalizer.py:717-721 | The seven-code-point element can come out of `fix_quotes` without being in the input: `, „‟„, ` becomes `, "‟", `. |
| Quotes.SingleVariantsAreBranches | text_normalizer.py:617 | The single-quote variants are exactly the one-code-point branches other than the apostrophe. |
| Quotes.DoubleVariantsAreBranches | text_normalizer.py:596-615 | The double-quote variants are exactly the one-code-point branches. |
| CharTable.Image | text_normalizer.py:13-525 | Every table entry maps a non-ASCII key to a non-empty ASCII image. |
| CharTable.Translate | text_normalizer.py:765 | `translate` never shortens the text. |
| CharTable.TranslateLeavesNoKey | text_normalizer.py:765 | The output of `translate` contains no key of the table. |
| CharTable.TranslateAppend | text_normalizer.py:765 | `translate` distributes over concatenation. |
| CharTable.TranslateOne | text_normalizer.py:765 | A code point becomes its image if it has one, and otherwise stays. |
| CharTable.TranslateUnmapped | text_normalizer.py:765 | Text made only of unmapped code points is unchanged. |
| CharTable.TranslateIdempotent | text_normalizer.py:765 | Translating twice equals translating once. |
| CharTable.EntriesAsWritten | text_normalizer.py:372-519 | The lookup that `translate` uses gives the images exactly as the source writes them. Two capitals fold to lower case (Ý→y, Š→s). The IJ ligatures become two letters (Ĳ→IJ, ĳ→ij). |
| UnicodeTable.BranchOfEntry | text_normalizer.py:528-593 | Joining the keys with `\|` gives one branch per entry. Every key other than entry 10 contains no regex syntax, so its branch matches exactly the key text. Entry 10 is the bracketed branch ে, any code point but ৗ, ৗ. |
| UnicodeTable.TableKeysDistinct | text_normalizer.py:528-591 | No key of the ordered dict is written twice, so the dict keeps all 62 entries and the alternation has one branch per entry. |
| UnicodeTable.GetFindsEntry | text_normalizer.py:528-591 | `UNICODE_REPLACEMENTS.get(key)` returns, for every entry, the value written next to that key. |
| UnicodeTable.PatternOnlyAt10 | text_normalizer.py:528-591 | The regex key is entry 10 and no other entry. |
| UnicodeTable.AlternativesNonEmpty | text_normalizer.py:593 | No branch of the compiled pattern matches the empty string. |
| UnicodeTable.KeyIndex | text_normalizer.py:774 | Finds the first entry with the given key, or reports that there is none. |
| UnicodeTable.Get | text_normalizer.py:774 | `dict.get` gives `None` exactly when no entry has the key. Otherwise it gives a value stored under that key. |
| UnicodeTable.ReplaceUnicodeAtMiss | text_normalizer.py:771-776 | Where no key matches, `UNICODE_REPLACEMENTS_REGEX.sub` copies the code point and moves on by one. |
| UnicodeTable.ReplaceUnicodeAtMatch | text_normalizer.py:771-776 | Where branch k is the first to match, the lambda's value replaces the matched text and the scan resumes right after it. |
| UnicodeTable.UnmatchedUnchanged | text_normalizer.py:771-776 | Text where no key matches at any position is unchanged. |
| UnicodeTable.ReplacementFollowsBranch | text_normalizer.py:771-776 | A chosen literal key is replaced by its own value. The chosen pattern is replaced by group 1 followed by U+09CC, so the `None` fallback text is never produced. |
| UnicodeTable.LiteralBranchValue | text_normalizer.py:774 | The `.get` lookup on a chosen literal key returns that entry's value. |
| UnicodeTable.PatternBranchValue | text_normalizer.py:774-775 | The text matched by the pattern is no key, so the default applies. |
| UnicodeTable.VowelSignRule | text_normalizer.py:539 | The back-reference rule: ে x ৗ, with x none of া, ঁ, ৗ, becomes x followed by ৌ. Scanning then continues after the three code points. |
| UnicodeTable.AaSignBeforePattern | text_normalizer.py:534 | The literal ে া wins over the pattern at ে া ৗ. It gives ো, and the ৗ is rescanned. |
| UnicodeTable.CandrabinduBeforePattern | text_normalizer.py:537 | The literal ে ঁ ৗ wins over the pattern and gives ৌ ঁ. |
| UnicodeTable.ChosenLiteral | text_normalizer.py:771-776 | Where literal entry k is the first match, its value replaces it. |
| UnicodeTable.FullwidthDigit | text_normalizer.py:574-583 | A fullwidth digit becomes its ASCII digit. |
| UnicodeTable.FullwidthDigits | text_normalizer.py:574-583 | A run of fullwidth digits becomes the same digits in ASCII, position by position. |
| UnicodeTable.DigitMissesEarlierKey | text_normalizer.py:528-583 | No entry before a digit's own entry matches at that digit. |
| UnicodeTable.DeadEntries | text_normalizer.py:540-558 | Entries 23, 25, 28 and 29 are never chosen, because earlier one-code-point keys shadow them. |
| UnicodeTable.NoMatchAtAscii | text_normalizer.py:528-591 | No key matches at an ASCII code point. |
| UnicodeTable.AsciiUnchanged | text_normalizer.py:771-776 | ASCII text passes through the substitution unchanged. |
| Whitespace.SkipRun | text_normalizer.py:644 | Drops the leading run of `\s` and keeps all other content. |
| Whitespace.Collapse | text_normalizer.py:782 | The result is single-spaced: every `\s` in it is a lone U+0020. Deleting `\s` from input and result leaves the same text, so the other content is kept in order. The result is empty exactly when the input is, and starts with `\s` exactly when the input does. CollapseRun and CollapseBetween state that each run becomes exactly one U+0020. |
| Whitespace.FirstKept | text_normalizer.py:784 | Gives the first position not trimmed by `strip`. |
| Whitespace.LastKept | text_normalizer.py:784 | Gives the end of the part that `strip` keeps. |
| Whitespace.LeadingSpace | text_normalizer.py:784 | Gives the length of the leading `isspace` run. |
| Whitespace.Strip | text_normalizer.py:784 | `strip` returns a slice of the input that starts after the leading whitespace and has no whitespace at either end. Only whitespace follows it. |
| Whitespace.CollapseAndStrip | text_normalizer.py:782-784 | The final step gives canonical text: no whitespace at either end, every `\s` a single U+0020, no two in a row. CollapseAndStripKeepsText and InnerRunCollapses state what it keeps. |
| Whitespace.CollapseKeeps | text_normalizer.py:782 | A code point that is not `\s` is copied through the collapse unchanged. |
| Whitespace.CollapseRun | text_normalizer.py:782 | A whole run of `\s`, of any length and any mix of code points, becomes exactly one U+0020. |
| Whitespace.CollapseBetween | text_normalizer.py:782 | For an inner run, the text on either side is collapsed on its own and the two are joined by one U+0020. |
| Whitespace.CollapseNoSpace | text_normalizer.py:782 | Text without `\s` is its own collapse. |
| Whitespace.CollapseAndStripKeepsText | text_normalizer.py:782-784 | The final step only removes whitespace. Every code point that `strip` does not treat as whitespace occurs in the result exactly as often as in the input. |
| Whitespace.StripCounts | text_normalizer.py:784 | `strip` removes only whitespace: every other code point keeps its count. |
| Whitespace.InnerRunCollapses | text_normalizer.py:782-784 | Two words without `\s` joined by any run of `\s` come out as the two words joined by one U+0020. |
| Whitespace.JoinedCanonical | text_normalizer.py:782-784 | Two such words joined by one U+0020 are canonical. |
| Whitespace.StripCanonical | text_normalizer.py:784 | `strip` leaves canonical text alone. |
| Whitespace.WideSpacesCollapse | text_normalizer.py:644 | U+00A0 and U+3000 are `\s`: a run of them between two letters becomes one U+0020. |
| Whitespace.OnlyStripped | text_normalizer.py:782-784 | Text without `\s` is only stripped. |
| Whitespace.SeparatorKeptInside | text_normalizer.py:784 | U+001C..U+001F are not `\s`, but `strip` treats them as whitespace. Between two words such a code point survives the final step as it is. |
| Whitespace.SeparatorsStripped | text_normalizer.py:784 | Text made only of U+001C..U+001F is stripped to the empty string. |
| Whitespace.ZeroWidthSpaceKept | text_normalizer.py:784 | U+200B is whitespace to neither `\s` nor `strip`, so it is kept. |
| Whitespace.CollapseFixes | text_normalizer.py:782 | Collapsing text that is already single-spaced changes nothing. |
| Whitespace.CanonicalIsFixpoint | text_normalizer.py:782-784 | Canonical text is its own clean-up. |
| Whitespace.CollapseAndStripIdempotent | text_normalizer.py:782-784 | The final step is idempotent. |
| Noise.GetNorm | text_normalizer.py:787-789 | A norm contains no U+0020. |
| Noise.NormKeepsOthers | text_normalizer.py:787-789 | `get_norm` removes only U+0020. Every other code point of the lower-cased text keeps its multiplicity, so the length drops by exactly the number of spaces. |
| Noise.KeywordsDistinct | text_normalizer.py:649-714 | No keyword is listed twice. So the dict comprehension has one entry per keyword in list order, and a count keyed by keyword is a count per list position. |
| Noise.HitOfIsFirst | text_normalizer.py:806-815 | The keyword an item is credited to is the first, in list order, whose norm occurs in the item's norm. There is none exactly when no keyword's norm occurs. |
| Noise.FirstHitFrom | text_normalizer.py:810-815 | The chosen keyword's norm occurs in the item's norm and no earlier keyword's does. With no hit, no keyword's norm occurs. |
| Noise.HitIffNoise | text_normalizer.py:810-818 | An item is credited to some keyword exactly when some keyword's norm occurs in its norm. |
| Noise.FindKeyword | text_normalizer.py:810-815 | The inner loop stops at the first keyword whose norm occurs, and finds none exactly when none occurs. |
| Noise.FilterNoiseKeywords | text_normalizer.py:792-820 | Gives the survivors and one count per keyword, the number of items credited to it. The counts sum to `len(text_list) - len(cleaned_list)`. |
| Noise.CreditsAddUp | text_normalizer.py:806-818 | Every item is either kept or credited to exactly one keyword. |
| Noise.CountsAddUp | text_normalizer.py:813 | Any vector holding every keyword's credit sums to the number of removed items. |
| Noise.KeptMembers | text_normalizer.py:817-818 | An item survives exactly when it is in the input and no keyword matches it. |
| Noise.KeptPositions | text_normalizer.py:806-818 | The survivors sit at strictly increasing positions of the input, in order, so they form a subsequence of it. |
| Noise.KeptPositionsExact | text_normalizer.py:806-818 | Those positions are exactly the items that no keyword matches. |
| Noise.KeptIdempotent | text_normalizer.py:792-820 | Filtering the survivors again removes nothing. |
| Noise.CreditShadowed | text_normalizer.py:810-815 | A keyword whose norm contains an earlier keyword's norm is never credited. |
| Noise.NeverCredited | text_normalizer.py:813 | A keyword that is never the first hit has count zero. |
| Noise.ShadowedByPart | text_normalizer.py:649-714 | An ASCII keyword containing a part with the norm of an earlier ASCII keyword is never credited. |
| Noise.DeadKeywords | text_normalizer.py:649-714 | Under ASCII-faithful lower-casing, keywords 12, 17, 18, 27, 28, 35, 38, 39, 43, 58 and 63 are never credited. Examples: `sagormeme` behind `MEME`, `fb.com` behind `.com`. |
| Noise.DeadSagormeme | text_normalizer.py:657-662 | `sagormeme` is shadowed by `MEME`. |
| Noise.DeadFerdoushShanto | text_normalizer.py:665-667 | `f /ferdoush.Shanto` is shadowed by `Shanto`. |
| Noise.DeadFakibajibd | text_normalizer.py:660-668 | `FB/FAKIBAJIBD` is shadowed by `fakibaji`. |
| Noise.DeadFMemes | text_normalizer.py:656-677 | `f.memes` is shadowed by `memes`. |
| Noise.DeadBangleMeme | text_normalizer.py:657-678 | `BangleMeme` is shadowed by `MEME`. |
| Noise.DeadBanglatrollCom | text_normalizer.py:673-685 | `BANGLATROLL.COM` is shadowed by `BANGLA TROLL`. |
| Noise.DeadMemefoxofficial | text_normalizer.py:657-688 | `memefoxofficial` is shadowed by `MEME`. |
| Noise.DeadAsrafulMeme | text_normalizer.py:657-689 | `Asraful Meme's` is shadowed by `MEME`. |
| Noise.DeadFaizlami | text_normalizer.py:692-693 | `Faizlami` is shadowed by `Faizlam`. |
| Noise.DeadAbMemeposting | text_normalizer.py:657-708 | `ab.memeposting` is shadowed by `MEME`. |
| Noise.DeadFbCom | text_normalizer.py:697-713 | `fb.com` is shadowed by `.com`. |
| Text.Contains | text_normalizer.py:812 | `norm_kw in norm_item` holds exactly when the needle occurs contiguously in the text. |
| Text.SplitJoin | text_normalizer.py:837 | `" ".join` loses nothing: splitting the result on the separator gives back the pieces, provided no piece contains it. |
| Text.Remove | text_normalizer.py:789 | `replace(" ", "")` leaves no U+0020 and never lengthens the text. |
| Text.JoinLength | text_normalizer.py:837 | `" ".join` holds every piece and one separator between each two, so its length is the pieces' total plus one per gap. |
| Text.JoinIsEmpty | text_normalizer.py:837 | With a non-empty separator, the join is empty exactly when there is no piece or one empty piece. |
| Text.RemoveKeepsOthers | text_normalizer.py:789 | `replace(" ", "")` keeps every other code point with its multiplicity. |
| Text.RemoveAppend | text_normalizer.py:789 | `replace(" ", "")` distributes over concatenation. |
| Normalizer.Normalize | text_normalizer.py:724-784 | Whatever the library stages return, `normalize` gives canonical text. |
| Normalizer.NormalizeSettled | text_normalizer.py:782-784 | Running the final clean-up again on the result of `normalize` changes nothing. |
| Normalizer.StagesFollowOrder | text_normalizer.py:747-779 | The stages of `normalize` before the clean-up are exactly the list `Order`, run first to last. |
| Normalizer.OrderStarts | text_normalizer.py:747-750 | Encoding repair runs first and quote folding second. |
| Normalizer.OrderSubstitutesWhenSet | text_normalizer.py:753-762 | The URL, punctuation and emoji stages each run exactly when their replacement is not `None`. |
| Normalizer.OrderNormalizesLast | text_normalizer.py:767-779 | Unicode normalization is the last stage exactly when `apply_unicode_norm_last` is true. |
| Normalizer.OrderNoRepeats | text_normalizer.py:747-779 | No stage runs twice. |
| Normalizer.OrderSubstitutionsFirst | text_normalizer.py:753-771 | Every substitution stage runs before both table passes, and `translate` runs before the multi-code-point table. |
| Normalizer.SkippedStagesIgnored | text_normalizer.py:753-762 | A substitution whose replacement is `None` is skipped: its library function does not affect the result. |
| Normalizer.EmptyStaysEmpty | text_normalizer.py:724-784 | If every library stage maps empty text to empty text, `normalize("")` is empty. |
| Normalizer.PlainAsciiOnlyCleaned | text_normalizer.py:747-784 | Take plain ASCII text without a backtick, the substitutions skipped, and library stages that keep the text. Then only the whitespace clean-up acts. |
| Normalizer.QuotesKeepPlainAscii | text_normalizer.py:717-721 | `fix_quotes` keeps ASCII text without a backtick. |
| Normalizer.TableKeepsAscii | text_normalizer.py:765 | `translate` keeps ASCII text. |
| Normalizer.ProcessExtractedText | text_normalizer.py:823-842 | The corpus is `normalize` with the defaults, applied to the space-joined survivors. It is canonical. |
| Normalizer.AllNoiseGivesEmptyCorpus | text_normalizer.py:834-837 | If every fragment is noise, or there is none, the joined corpus is empty, so the result is `normalize("")`. |

## Left out

- `fix_text`, `\p{punct}` (line 645), the emoji regex (line 646), `unicodedata.normalize` and `str.lower` are library code. They are parameters of the model.
- The URL regex (text_normalizer.py:620-641) is a pattern the program defines itself. It is left out as an opaque pattern: its substitution is a parameter of the model.
- For all of these, only their position in the stage order and the `None` skips are modelled.
- `model.py`, `gemini_extractor.py`, `main.py` and `test_api.py` are not part of this model. They are the meme classifier (`model.py`), the Gemini OCR client (`gemini_extractor.py`), the FastAPI service (`main.py`) and its test client (`test_api.py`).
- Noise.DeadKeywords: holds only for a `lower` that agrees with ASCII lower-casing on ASCII text. `str.lower` does, but the model does not assume anything about it otherwise.
- CharTable.Image: the 31 blocks of the table are searched in order, and the first that knows a code point gives its image. No key occurs in two blocks, but that is not stated as a lemma.
- Quotes.FixQuotes: promises only that no one-code-point variant remains. The seven-code-point element `, "‟", ` can survive, and can even be built by the second pass from parts (ElementRebuilt).
- Quotes.FixQuotesMaps: the code-point-map view is proved only for text without U+201F. Around that mark the element `, "‟", ` is matched as a whole, as QuotedReversedNineFolds and LoneReversedNineKept state.
- Whitespace.CollapseAndStrip: `\s` and `str.strip` disagree on U+001C..U+001F. In the model, where `fix_text` is a parameter, such a code point between words survives the final step as it is (SeparatorKeptInside). The real `fix_text` at line 747 removes control characters, these four included, and no later stage puts them back. So in the program they never reach the whitespace step. The canonical property is stated for `\s` between words and for `isspace` at the ends.
- Noise.HitOf and Noise.Kept: the functions carry no `ensures` of their own. What they promise is stated by the lemmas HitOfIsFirst, KeptMembers, KeptPositions and KeptPositionsExact.
- UnicodeTable.ReplaceUnicode, UnicodeTable.Replacement, Normalizer.Stages, Normalizer.SubWhenSet and Text.Join carry no `ensures` of their own. What they promise is stated by lemmas: ReplaceUnicodeAtMiss, ReplaceUnicodeAtMatch and ReplacementFollowsBranch; StagesFollowOrder, OrderSubstitutesWhenSet and SkippedStagesIgnored; and JoinLength, JoinIsEmpty and SplitJoin.
- Text.Split: exists only as the partner of `Join`. The source never splits.
- Exceptions raised by library calls, and non-string inputs, are not modelled.

Two facts about the code worth keeping in mind:

- `get_norm` removes only U+0020, not other whitespace.
- The curly quotes U+201C, U+201D, U+2018 and U+2019 are not in the `fix_quotes` lists. With the default `punct_replacement`, the `\p{punct}` substitution (lines 757-758) already turns them into the replacement, before the multi-code-point table (line 771) runs. The table folds them into `"` and `'` only when `punct_replacement` is `None`.
