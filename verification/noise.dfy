/** Noise-keyword filtering (`get_norm`, `filter_noise_keywords`): an item of
    extracted text is dropped when the normalized form of some keyword occurs
    in its own normalized form, and the drop is credited to the first such
    keyword in list order. */
module Noise {
  import opened Wrappers
  import opened Text

  /** Lines 650-665 of the keyword list. */
  const KeywordsA: seq<string> := [
    "dailyhunt", "Download", "Google Play", "Mr420.BD", "OFF JAA", "mairala",
    "memes", "MEME", "cringe", "seriously", "fakibaji", "faki",
    "sagormeme", "tangaila", "sarcasmbd", "Shanto"
  ]

  /** Lines 666-681. */
  const KeywordsB: seq<string> := [
    "ferdoush", "f /ferdoush.Shanto", "FB/FAKIBAJIBD", "Chorki ORIGINAL FILM", "Chorki", "NEWS24",
    "Bengali_thug_life", "BANGLA TROLL", "Koi Jaaasss", "niiladro.hridoy", "FB.COM/EtOKhushi", "f.memes",
    "BangleMeme", "KEU AMARE", "SAMAKAL.COM", "IndianOil"
  ]

  /** Lines 682-697. */
  const KeywordsC: seq<string> := [
    "junction\U{09AC}\U{09BE}\U{0982}\U{09B2}\U{09BE}", "LinkedIn", "Microsoft", "BANGLATROLL.COM", "jhakkasss", "Rahul Islam",
    "memefoxofficial", "Asraful Meme's", "imgflip.com", "Sarcozm", "Faizlam", "Faizlami",
    "Bamboo.vaiya", "RANTAGES", "GOATPOSING", ".com"
  ]

  /** Lines 698-713. */
  const KeywordsD: seq<string> := [
    "RGVzoomin", "Follow", "@charliekirk11", "Sajedul_Islam", "@Tamim", "judas",
    "almamunk", "@rxh", "@Atif", "Rimon Bro", "ab.memeposting", "@mahdi",
    "@rolexhalim", "@ash", "akhib", "fb.com"
  ]

  /** `NOISE_KEYWORDS`, in order. */
  const NoiseKeywords: seq<string> := KeywordsA + KeywordsB + KeywordsC + KeywordsD

  lemma KeywordsADistinct()
    ensures Distinct(KeywordsA)
  {
  }

  lemma KeywordsBDistinct()
    ensures Distinct(KeywordsB)
  {
  }

  lemma KeywordsCDistinct()
    ensures Distinct(KeywordsC)
  {
  }

  lemma KeywordsDDistinct()
    ensures Distinct(KeywordsD)
  {
  }

  lemma KeywordsAApartFromB()
    ensures Apart(KeywordsA, KeywordsB)
  {
  }

  lemma KeywordsAApartFromC()
    ensures Apart(KeywordsA, KeywordsC)
  {
  }

  lemma KeywordsAApartFromD()
    ensures Apart(KeywordsA, KeywordsD)
  {
  }

  lemma KeywordsBApartFromC()
    ensures Apart(KeywordsB, KeywordsC)
  {
  }

  lemma KeywordsBApartFromD()
    ensures Apart(KeywordsB, KeywordsD)
  {
  }

  lemma KeywordsCApartFromD()
    ensures Apart(KeywordsC, KeywordsD)
  {
  }

  /** No keyword is listed twice. So the dict comprehension over the list has
      one entry per keyword, in list order, and a count keyed by keyword is a
      count per list position. */
  lemma KeywordsDistinct()
    ensures forall i, j :: 0 <= i < j < |NoiseKeywords| ==> NoiseKeywords[i] != NoiseKeywords[j]
  {
    KeywordsADistinct();
    KeywordsBDistinct();
    KeywordsCDistinct();
    KeywordsDDistinct();
    KeywordsAApartFromB();
    KeywordsAApartFromC();
    KeywordsAApartFromD();
    KeywordsBApartFromC();
    KeywordsBApartFromD();
    KeywordsCApartFromD();
    DistinctConcat(KeywordsC, KeywordsD);
    ApartConcat(KeywordsB, KeywordsC, KeywordsD);
    DistinctConcat(KeywordsB, KeywordsC + KeywordsD);
    ApartConcat(KeywordsA, KeywordsC, KeywordsD);
    ApartConcat(KeywordsA, KeywordsB, KeywordsC + KeywordsD);
    DistinctConcat(KeywordsA, KeywordsB + (KeywordsC + KeywordsD));
    assert NoiseKeywords == KeywordsA + (KeywordsB + (KeywordsC + KeywordsD));
  }

  /** `get_norm`: lower-case with `lower` (Python's `str.lower`), then drop
      every space U+0020. */
  function GetNorm(lower: string -> string, s: string): (r: string)
    ensures ' ' !in r
  {
    Remove(lower(s), ' ')
  }

  /** Only spaces go: every other code point of the lower-cased text stays in
      the norm, as often as it occurred. */
  lemma NormKeepsOthers(lower: string -> string, s: string)
    ensures forall c :: c != ' ' ==> multiset(GetNorm(lower, s))[c] == multiset(lower(s))[c]
    ensures |GetNorm(lower, s)| == |lower(s)| - multiset(lower(s))[' ']
  {
    RemoveKeepsOthers(lower(s), ' ');
  }

  /** `normalized_keywords`: the norm of each keyword, in list order (the
      keywords are distinct, so the dict has one entry per keyword). */
  function Norms(lower: string -> string): (ns: seq<string>)
    ensures |ns| == |NoiseKeywords|
    ensures forall k :: 0 <= k < |ns| ==> ns[k] == GetNorm(lower, NoiseKeywords[k])
  {
    seq(|NoiseKeywords|, k requires 0 <= k < |NoiseKeywords| => GetNorm(lower, NoiseKeywords[k]))
  }

  /** The first norm from position `k` on that occurs in `normItem`. */
  function FirstHitFrom(norms: seq<string>, normItem: string, k: nat): (r: Option<nat>)
    requires k <= |norms|
    ensures r.Some? ==> k <= r.value < |norms| && IsSubstring(norms[r.value], normItem)
    ensures r.Some? ==> forall j :: k <= j < r.value ==> !IsSubstring(norms[j], normItem)
    ensures r.None? ==> forall j :: k <= j < |norms| ==> !IsSubstring(norms[j], normItem)
    decreases |norms| - k
  {
    if k == |norms| then None
    else if Contains(normItem, norms[k]) then Some(k)
    else FirstHitFrom(norms, normItem, k + 1)
  }

  /** The keyword an item is credited to: the first whose norm occurs in the
      item's norm. `norms` are the keyword norms, in list order. */
  function HitOf(norms: seq<string>, lower: string -> string, item: string): Option<nat> {
    FirstHitFrom(norms, GetNorm(lower, item), 0)
  }

  /** The credited keyword is the first, in list order, whose norm occurs in
      the item's norm; there is none exactly when no keyword's norm occurs. */
  lemma HitOfIsFirst(norms: seq<string>, lower: string -> string, item: string)
    ensures var r := HitOf(norms, lower, item);
      && (r.Some? ==> r.value < |norms| && IsSubstring(norms[r.value], GetNorm(lower, item)))
      && (r.Some? ==> forall j :: 0 <= j < r.value ==> !IsSubstring(norms[j], GetNorm(lower, item)))
      && (r.None? ==> forall j :: 0 <= j < |norms| ==> !IsSubstring(norms[j], GetNorm(lower, item)))
  {
  }

  /** An item is noise when the norm of some keyword occurs in its norm. */
  ghost predicate IsNoise(norms: seq<string>, lower: string -> string, item: string) {
    exists k :: 0 <= k < |norms| && IsSubstring(norms[k], GetNorm(lower, item))
  }

  /** An item is credited to a keyword exactly when it is noise. */
  lemma HitIffNoise(norms: seq<string>, lower: string -> string, item: string)
    ensures HitOf(norms, lower, item).Some? <==> IsNoise(norms, lower, item)
  {
    if HitOf(norms, lower, item).Some? {
      assert IsSubstring(norms[HitOf(norms, lower, item).value], GetNorm(lower, item));
    }
  }

  /** The items that survive, in their original order. */
  function Kept(norms: seq<string>, lower: string -> string, items: seq<string>): seq<string>
    decreases |items|
  {
    if |items| == 0 then []
    else
      var last := items[|items| - 1];
      Kept(norms, lower, items[..|items| - 1]) + if HitOf(norms, lower, last).None? then [last] else []
  }

  /** How many items are credited to keyword `k`. */
  function Credit(norms: seq<string>, lower: string -> string, items: seq<string>, k: nat): nat
    decreases |items|
  {
    if |items| == 0 then 0
    else Credit(norms, lower, items[..|items| - 1], k) + Tally(norms, lower, items[|items| - 1], k)
  }

  /** One if `item` is credited to keyword `k`, else zero. */
  function Tally(norms: seq<string>, lower: string -> string, item: string, k: nat): nat {
    if HitOf(norms, lower, item) == Some(k) then 1 else 0
  }

  function Sum(xs: seq<nat>): nat
    decreases |xs|
  {
    if |xs| == 0 then 0 else Sum(xs[..|xs| - 1]) + xs[|xs| - 1]
  }

  /** Appending one item extends the survivors and the credits by what that
      item contributes. */
  lemma Snoc(norms: seq<string>, lower: string -> string, items: seq<string>, x: string)
    ensures Kept(norms, lower, items + [x]) ==
      Kept(norms, lower, items) + (if HitOf(norms, lower, x).None? then [x] else [])
    ensures forall k: nat :: Credit(norms, lower, items + [x], k) == Credit(norms, lower, items, k) + Tally(norms, lower, x, k)
  {
    var xs := items + [x];
    assert xs[..|xs| - 1] == items;
  }

  /** The same, for a prefix of a list. */
  lemma PrefixStep(norms: seq<string>, lower: string -> string, items: seq<string>, n: nat)
    requires n < |items|
    ensures Kept(norms, lower, items[..n + 1]) ==
      Kept(norms, lower, items[..n]) + (if HitOf(norms, lower, items[n]).None? then [items[n]] else [])
    ensures forall k: nat :: Credit(norms, lower, items[..n + 1], k) == Credit(norms, lower, items[..n], k) + Tally(norms, lower, items[n], k)
  {
    assert items[..n + 1][..n] == items[..n];
  }

  /** The inner loop: scan the keyword norms in order and stop at the first
      that occurs in the item's norm. */
  method FindKeyword(norms: seq<string>, normItem: string) returns (hit: Option<nat>)
    ensures hit == FirstHitFrom(norms, normItem, 0)
  {
    var j := 0;
    while j < |norms|
      invariant j <= |norms|
      invariant forall i :: 0 <= i < j ==> !IsSubstring(norms[i], normItem)
    {
      if Contains(normItem, norms[j]) {
        return Some(j);
      }
      j := j + 1;
    }
    return None;
  }

  /** `filter_noise_keywords`: the kept items in order, and per keyword how
      many items it removed (the Counter, as one entry per keyword). */
  method FilterNoiseKeywords(lower: string -> string, textList: seq<string>)
    returns (cleaned: seq<string>, counts: seq<nat>)
    ensures cleaned == Kept(Norms(lower), lower, textList)
    ensures |counts| == |NoiseKeywords|
    ensures forall k :: 0 <= k < |counts| ==> counts[k] == Credit(Norms(lower), lower, textList, k)
    ensures Sum(counts) + |cleaned| == |textList|
  {
    var norms := Norms(lower);
    counts := seq(|norms|, _ => 0);
    cleaned := [];
    var n := 0;
    while n < |textList|
      invariant n <= |textList|
      invariant cleaned == Kept(norms, lower, textList[..n])
      invariant |counts| == |norms|
      invariant forall k :: 0 <= k < |counts| ==> counts[k] == Credit(norms, lower, textList[..n], k)
    {
      var item := textList[n];
      var hit := FindKeyword(norms, GetNorm(lower, item));
      PrefixStep(norms, lower, textList, n);
      match hit {
        case Some(j) =>
          counts := counts[j := counts[j] + 1];
        case None =>
          cleaned := cleaned + [item];
      }
      n := n + 1;
    }
    assert textList[..n] == textList;
    CountsAddUp(norms, lower, textList, counts);
  }

  /** The credit of every keyword, in list order. */
  function Credits(norms: seq<string>, lower: string -> string, items: seq<string>): (cs: seq<nat>)
    ensures |cs| == |norms|
    ensures forall k :: 0 <= k < |cs| ==> cs[k] == Credit(norms, lower, items, k)
  {
    seq(|norms|, k requires 0 <= k < |norms| => Credit(norms, lower, items, k))
  }

  /** A vector that holds every keyword's credit sums to the number of
      removed items. */
  lemma CountsAddUp(norms: seq<string>, lower: string -> string, items: seq<string>, counts: seq<nat>)
    requires |counts| == |norms|
    requires forall k :: 0 <= k < |counts| ==> counts[k] == Credit(norms, lower, items, k)
    ensures Sum(counts) + |Kept(norms, lower, items)| == |items|
  {
    assert counts == Credits(norms, lower, items);
    CreditsAddUp(norms, lower, items);
  }

  /** Adding one to one entry adds one to the sum. */
  lemma {:induction false} SumBump(xs: seq<nat>, k: nat)
    requires k < |xs|
    ensures Sum(xs[k := xs[k] + 1]) == Sum(xs) + 1
    decreases |xs|
  {
    var ys := xs[k := xs[k] + 1];
    if k < |xs| - 1 {
      assert ys[..|ys| - 1] == xs[..|xs| - 1][k := xs[k] + 1];
      SumBump(xs[..|xs| - 1], k);
    } else {
      assert ys[..|ys| - 1] == xs[..|xs| - 1];
    }
  }

  /** A vector of zeros sums to zero. */
  lemma {:induction false} SumOfZeros(xs: seq<nat>)
    requires forall i :: 0 <= i < |xs| ==> xs[i] == 0
    ensures Sum(xs) == 0
    decreases |xs|
  {
    if |xs| > 0 {
      SumOfZeros(xs[..|xs| - 1]);
    }
  }

  /** Every item is either kept or credited to exactly one keyword. */
  lemma {:induction false} CreditsAddUp(norms: seq<string>, lower: string -> string, items: seq<string>)
    ensures Sum(Credits(norms, lower, items)) + |Kept(norms, lower, items)| == |items|
    decreases |items|
  {
    if |items| > 0 {
      var n := |items| - 1;
      var prefix := items[..n];
      var x := items[n];
      assert items == prefix + [x];
      Snoc(norms, lower, prefix, x);
      CreditsAddUp(norms, lower, prefix);
      var before := Credits(norms, lower, prefix);
      var kept := Kept(norms, lower, prefix);
      match HitOf(norms, lower, x)
      case Some(j) =>
        var after := before[j := before[j] + 1];
        forall k | 0 <= k < |norms|
          ensures Credits(norms, lower, items)[k] == after[k]
        {
          assert Tally(norms, lower, x, k) == if k == j then 1 else 0;
        }
        assert Credits(norms, lower, items) == after;
        SumBump(before, j);
        assert kept + [] == kept;
        assert Kept(norms, lower, items) == kept;
        assert Sum(Credits(norms, lower, items)) == Sum(before) + 1;
      case None =>
        forall k | 0 <= k < |norms|
          ensures Credits(norms, lower, items)[k] == before[k]
        {
          assert Tally(norms, lower, x, k) == 0;
        }
        assert Credits(norms, lower, items) == before;
        assert Kept(norms, lower, items) == kept + [x];
    } else {
      SumOfZeros(Credits(norms, lower, items));
    }
  }

  /** An item survives exactly when it occurs in the input and no keyword
      matches it. */
  lemma {:induction false} KeptMembers(norms: seq<string>, lower: string -> string, items: seq<string>, x: string)
    ensures x in Kept(norms, lower, items) <==> x in items && HitOf(norms, lower, x).None?
    decreases |items|
  {
    if |items| > 0 {
      var n := |items| - 1;
      KeptMembers(norms, lower, items[..n], x);
      assert items == items[..n] + [items[n]];
      Snoc(norms, lower, items[..n], items[n]);
    }
  }

  /** Where the survivors stand in the input: strictly increasing positions
      holding the survivors in order. So the survivors are a subsequence of
      the input. */
  function KeptPositions(norms: seq<string>, lower: string -> string, items: seq<string>): (idx: seq<nat>)
    ensures |idx| == |Kept(norms, lower, items)|
    ensures forall t :: 0 <= t < |idx| ==> idx[t] < |items| && Kept(norms, lower, items)[t] == items[idx[t]]
    ensures forall t, u :: 0 <= t < u < |idx| ==> idx[t] < idx[u]
    decreases |items|
  {
    if |items| == 0 then []
    else
      var n := |items| - 1;
      var prefix := items[..n];
      assert items == prefix + [items[n]];
      Snoc(norms, lower, prefix, items[n]);
      var before := KeptPositions(norms, lower, prefix);
      assert forall p :: 0 <= p < n ==> items[p] == prefix[p];
      if HitOf(norms, lower, items[n]).None? then before + [n] else before
  }

  /** The positions are exactly those of the items no keyword matches. */
  lemma {:induction false} KeptPositionsExact(norms: seq<string>, lower: string -> string, items: seq<string>)
    ensures forall p :: 0 <= p < |items| ==>
      (p in KeptPositions(norms, lower, items) <==> HitOf(norms, lower, items[p]).None?)
    decreases |items|
  {
    if |items| > 0 {
      var n := |items| - 1;
      var prefix := items[..n];
      KeptPositionsExact(norms, lower, prefix);
      var before := KeptPositions(norms, lower, prefix);
      var idx := KeptPositions(norms, lower, items);
      assert forall t :: 0 <= t < |before| ==> before[t] < n;
      if HitOf(norms, lower, items[n]).None? {
        assert idx == before + [n];
      } else {
        assert idx == before;
      }
      forall p | 0 <= p < |items|
        ensures p in idx <==> HitOf(norms, lower, items[p]).None?
      {
        if p < n {
          assert items[p] == prefix[p];
        }
      }
    }
  }

  /** Filtering the survivors again removes nothing. */
  lemma {:induction false} KeptIdempotent(norms: seq<string>, lower: string -> string, items: seq<string>)
    ensures Kept(norms, lower, Kept(norms, lower, items)) == Kept(norms, lower, items)
    decreases |items|
  {
    if |items| > 0 {
      var n := |items| - 1;
      var x := items[n];
      KeptIdempotent(norms, lower, items[..n]);
      assert items == items[..n] + [x];
      Snoc(norms, lower, items[..n], x);
      var k := Kept(norms, lower, items[..n]);
      if HitOf(norms, lower, x).None? {
        Snoc(norms, lower, k, x);
        assert Kept(norms, lower, items) == k + [x];
      } else {
        assert k + [] == k;
        assert Kept(norms, lower, items) == k;
      }
    }
  }

  /** A keyword whose norm contains the norm of an earlier keyword is never
      credited: every item it matches is matched by the earlier one first. */
  lemma CreditShadowed(norms: seq<string>, lower: string -> string, items: seq<string>, i: nat, j: nat)
    requires i < j < |norms|
    requires IsSubstring(norms[i], norms[j])
    ensures Credit(norms, lower, items, j) == 0
  {
    forall x | x in items
      ensures HitOf(norms, lower, x) != Some(j)
    {
      if IsSubstring(norms[j], GetNorm(lower, x)) {
        SubstringTransitive(norms[i], norms[j], GetNorm(lower, x));
      }
    }
    NeverCredited(norms, lower, items, j);
  }

  /** A keyword that matches first for no item has credit zero. */
  lemma {:induction false} NeverCredited(norms: seq<string>, lower: string -> string, items: seq<string>, j: nat)
    requires forall x :: x in items ==> HitOf(norms, lower, x) != Some(j)
    ensures Credit(norms, lower, items, j) == 0
    decreases |items|
  {
    if |items| > 0 {
      var n := |items| - 1;
      var prefix := items[..n];
      assert items[n] in items;
      forall x | x in prefix
        ensures HitOf(norms, lower, x) != Some(j)
      {
        var t :| 0 <= t < |prefix| && prefix[t] == x;
        assert items[t] == x;
      }
      NeverCredited(norms, lower, prefix, j);
    }
  }

  /** The norm of ASCII text under ASCII lower-casing. */
  function AsciiNorm(s: string): (r: string)
    ensures ' ' !in r && |r| <= |s|
  {
    Remove(AsciiLower(s), ' ')
  }

  /** The norm of a concatenation of ASCII text is the concatenation of the norms. */
  lemma AsciiNormAppend(a: string, b: string)
    ensures AsciiNorm(a + b) == AsciiNorm(a) + AsciiNorm(b)
  {
    AsciiLowerAppend(a, b);
    RemoveAppend(AsciiLower(a), AsciiLower(b), ' ');
  }

  /** Keyword `j` is never credited when it is ASCII text `p + m + q` whose
      middle part `m` has the norm of the earlier ASCII keyword `i`. */
  lemma ShadowedByPart(lower: string -> string, items: seq<string>, i: nat, j: nat, p: string, m: string, q: string)
    requires LowersAscii(lower)
    requires i < j < |NoiseKeywords|
    requires AllAscii(NoiseKeywords[i]) && AllAscii(NoiseKeywords[j])
    requires NoiseKeywords[j] == p + m + q && AsciiNorm(m) == AsciiNorm(NoiseKeywords[i])
    ensures Credit(Norms(lower), lower, items, j) == 0
  {
    var norms := Norms(lower);
    assert lower(NoiseKeywords[i]) == AsciiLower(NoiseKeywords[i]);
    assert lower(NoiseKeywords[j]) == AsciiLower(NoiseKeywords[j]);
    AsciiNormAppend(p + m, q);
    AsciiNormAppend(p, m);
    var at := |AsciiNorm(p)|;
    assert norms[i] <= norms[j][at..];
    CreditShadowed(norms, lower, items, i, j);
  }

  /** `t` is the ASCII lower-casing of `s`, code point by code point. */
  lemma LowersTo(s: string, t: string)
    requires |s| == |t|
    requires forall i :: 0 <= i < |s| ==> t[i] == LowerAscii(s[i])
    ensures AsciiLower(s) == t
  {
    AsciiLowerAt(s);
  }

  /** Text with the same ASCII lower-casing has the same norm. */
  lemma SameLowering(a: string, b: string, t: string)
    requires AsciiLower(a) == t && AsciiLower(b) == t
    ensures AsciiNorm(a) == AsciiNorm(b)
  {
  }

  /** A space between two parts does not count towards the norm. */
  lemma SpaceDropped(a: string, b: string)
    ensures AsciiNorm(a + " " + b) == AsciiNorm(a + b)
  {
    AsciiNormAppend(a + " ", b);
    AsciiNormAppend(a, " ");
    AsciiNormAppend(a, b);
    LowersTo(" ", " ");
    assert Remove(" ", ' ') == "";
  }

  /** `MEME`, `Meme` and `meme` have the same norm. */
  lemma MemeCases()
    ensures AsciiNorm("Meme") == AsciiNorm("MEME") && AsciiNorm("meme") == AsciiNorm("MEME")
  {
    LowersTo("MEME", "meme");
    LowersTo("Meme", "meme");
    LowersTo("meme", "meme");
    SameLowering("Meme", "MEME", "meme");
    SameLowering("meme", "MEME", "meme");
  }

  /** `FAKIBAJI` and `fakibaji` have the same norm. */
  lemma FakibajiCases()
    ensures AsciiNorm("FAKIBAJI") == AsciiNorm("fakibaji")
  {
    LowersTo("FAKIBAJI", "fakibaji");
    LowersTo("fakibaji", "fakibaji");
    SameLowering("FAKIBAJI", "fakibaji", "fakibaji");
  }

  /** The space in `BANGLA TROLL` does not count towards its norm. */
  lemma BanglaTrollSpace()
    ensures AsciiNorm("BANGLATROLL") == AsciiNorm("BANGLA TROLL")
  {
    assert "BANGLA" + " " + "TROLL" == "BANGLA TROLL";
    assert "BANGLA" + "TROLL" == "BANGLATROLL";
    SpaceDropped("BANGLA", "TROLL");
  }

  /** Keywords 7 and 12 as listed, and how `sagormeme` splits. */
  lemma SagormemeParts()
    ensures NoiseKeywords[7] == "MEME" && AllAscii("MEME")
    ensures NoiseKeywords[12] == "sagormeme" && AllAscii("sagormeme")
    ensures "sagormeme" == "sagor" + "meme" + ""
  {
    assert KeywordsA[7] == "MEME";
    assert KeywordsA[12] == "sagormeme";
  }

  /** `sagormeme` is never credited: it contains the norm of `MEME`. */
  lemma DeadSagormeme(lower: string -> string, items: seq<string>)
    requires LowersAscii(lower)
    ensures Credit(Norms(lower), lower, items, 12) == 0
  {
    SagormemeParts();
    MemeCases();
    ShadowedByPart(lower, items, 7, 12, "sagor", "meme", "");
  }

  /** Keywords 15 and 17 as listed, and how `f /ferdoush.Shanto` splits. */
  lemma FerdoushShantoParts()
    ensures NoiseKeywords[15] == "Shanto" && AllAscii("Shanto")
    ensures NoiseKeywords[17] == "f /ferdoush.Shanto" && AllAscii("f /ferdoush.Shanto")
    ensures "f /ferdoush.Shanto" == "f /ferdoush." + "Shanto" + ""
  {
    assert KeywordsA[15] == "Shanto";
    assert KeywordsB[1] == "f /ferdoush.Shanto";
  }

  /** `f /ferdoush.Shanto` is never credited: it contains the norm of `Shanto`. */
  lemma DeadFerdoushShanto(lower: string -> string, items: seq<string>)
    requires LowersAscii(lower)
    ensures Credit(Norms(lower), lower, items, 17) == 0
  {
    FerdoushShantoParts();
    ShadowedByPart(lower, items, 15, 17, "f /ferdoush.", "Shanto", "");
  }

  /** Keywords 10 and 18 as listed, and how `FB/FAKIBAJIBD` splits. */
  lemma FakibajibdParts()
    ensures NoiseKeywords[10] == "fakibaji" && AllAscii("fakibaji")
    ensures NoiseKeywords[18] == "FB/FAKIBAJIBD" && AllAscii("FB/FAKIBAJIBD")
    ensures "FB/FAKIBAJIBD" == "FB/" + "FAKIBAJI" + "BD"
  {
    assert KeywordsA[10] == "fakibaji";
    assert KeywordsB[2] == "FB/FAKIBAJIBD";
  }

  /** `FB/FAKIBAJIBD` is never credited: it contains the norm of `fakibaji`. */
  lemma DeadFakibajibd(lower: string -> string, items: seq<string>)
    requires LowersAscii(lower)
    ensures Credit(Norms(lower), lower, items, 18) == 0
  {
    FakibajibdParts();
    FakibajiCases();
    ShadowedByPart(lower, items, 10, 18, "FB/", "FAKIBAJI", "BD");
  }

  /** Keywords 6 and 27 as listed, and how `f.memes` splits. */
  lemma FMemesParts()
    ensures NoiseKeywords[6] == "memes" && AllAscii("memes")
    ensures NoiseKeywords[27] == "f.memes" && AllAscii("f.memes")
    ensures "f.memes" == "f." + "memes" + ""
  {
    assert KeywordsA[6] == "memes";
    assert KeywordsB[11] == "f.memes";
  }

  /** `f.memes` is never credited: it contains the norm of `memes`. */
  lemma DeadFMemes(lower: string -> string, items: seq<string>)
    requires LowersAscii(lower)
    ensures Credit(Norms(lower), lower, items, 27) == 0
  {
    FMemesParts();
    ShadowedByPart(lower, items, 6, 27, "f.", "memes", "");
  }

  /** Keywords 7 and 28 as listed, and how `BangleMeme` splits. */
  lemma BangleMemeParts()
    ensures NoiseKeywords[7] == "MEME" && AllAscii("MEME")
    ensures NoiseKeywords[28] == "BangleMeme" && AllAscii("BangleMeme")
    ensures "BangleMeme" == "Bangle" + "Meme" + ""
  {
    assert KeywordsA[7] == "MEME";
    assert KeywordsB[12] == "BangleMeme";
  }

  /** `BangleMeme` is never credited: it contains the norm of `MEME`. */
  lemma DeadBangleMeme(lower: string -> string, items: seq<string>)
    requires LowersAscii(lower)
    ensures Credit(Norms(lower), lower, items, 28) == 0
  {
    BangleMemeParts();
    MemeCases();
    ShadowedByPart(lower, items, 7, 28, "Bangle", "Meme", "");
  }

  /** Keywords 23 and 35 as listed, and how `BANGLATROLL.COM` splits. */
  lemma BanglatrollComParts()
    ensures NoiseKeywords[23] == "BANGLA TROLL" && AllAscii("BANGLA TROLL")
    ensures NoiseKeywords[35] == "BANGLATROLL.COM" && AllAscii("BANGLATROLL.COM")
    ensures "BANGLATROLL.COM" == "" + "BANGLATROLL" + ".COM"
  {
    assert KeywordsB[7] == "BANGLA TROLL";
    assert KeywordsC[3] == "BANGLATROLL.COM";
  }

  /** `BANGLATROLL.COM` is never credited: it contains the norm of `BANGLA TROLL`. */
  lemma DeadBanglatrollCom(lower: string -> string, items: seq<string>)
    requires LowersAscii(lower)
    ensures Credit(Norms(lower), lower, items, 35) == 0
  {
    BanglatrollComParts();
    BanglaTrollSpace();
    ShadowedByPart(lower, items, 23, 35, "", "BANGLATROLL", ".COM");
  }

  /** Keywords 7 and 38 as listed, and how `memefoxofficial` splits. */
  lemma MemefoxofficialParts()
    ensures NoiseKeywords[7] == "MEME" && AllAscii("MEME")
    ensures NoiseKeywords[38] == "memefoxofficial" && AllAscii("memefoxofficial")
    ensures "memefoxofficial" == "" + "meme" + "foxofficial"
  {
    assert KeywordsA[7] == "MEME";
    assert KeywordsC[6] == "memefoxofficial";
  }

  /** `memefoxofficial` is never credited: it contains the norm of `MEME`. */
  lemma DeadMemefoxofficial(lower: string -> string, items: seq<string>)
    requires LowersAscii(lower)
    ensures Credit(Norms(lower), lower, items, 38) == 0
  {
    MemefoxofficialParts();
    MemeCases();
    ShadowedByPart(lower, items, 7, 38, "", "meme", "foxofficial");
  }

  /** Keywords 7 and 39 as listed, and how `Asraful Meme's` splits. */
  lemma AsrafulMemeParts()
    ensures NoiseKeywords[7] == "MEME" && AllAscii("MEME")
    ensures NoiseKeywords[39] == "Asraful Meme's" && AllAscii("Asraful Meme's")
    ensures "Asraful Meme's" == "Asraful " + "Meme" + "'s"
  {
    assert KeywordsA[7] == "MEME";
    assert KeywordsC[7] == "Asraful Meme's";
  }

  /** `Asraful Meme's` is never credited: it contains the norm of `MEME`. */
  lemma DeadAsrafulMeme(lower: string -> string, items: seq<string>)
    requires LowersAscii(lower)
    ensures Credit(Norms(lower), lower, items, 39) == 0
  {
    AsrafulMemeParts();
    MemeCases();
    ShadowedByPart(lower, items, 7, 39, "Asraful ", "Meme", "'s");
  }

  /** Keywords 42 and 43 as listed, and how `Faizlami` splits. */
  lemma FaizlamiParts()
    ensures NoiseKeywords[42] == "Faizlam" && AllAscii("Faizlam")
    ensures NoiseKeywords[43] == "Faizlami" && AllAscii("Faizlami")
    ensures "Faizlami" == "" + "Faizlam" + "i"
  {
    assert KeywordsC[10] == "Faizlam";
    assert KeywordsC[11] == "Faizlami";
  }

  /** `Faizlami` is never credited: it contains the norm of `Faizlam`. */
  lemma DeadFaizlami(lower: string -> string, items: seq<string>)
    requires LowersAscii(lower)
    ensures Credit(Norms(lower), lower, items, 43) == 0
  {
    FaizlamiParts();
    ShadowedByPart(lower, items, 42, 43, "", "Faizlam", "i");
  }

  /** Keywords 7 and 58 as listed, and how `ab.memeposting` splits. */
  lemma AbMemepostingParts()
    ensures NoiseKeywords[7] == "MEME" && AllAscii("MEME")
    ensures NoiseKeywords[58] == "ab.memeposting" && AllAscii("ab.memeposting")
    ensures "ab.memeposting" == "ab." + "meme" + "posting"
  {
    assert KeywordsA[7] == "MEME";
    assert KeywordsD[10] == "ab.memeposting";
  }

  /** `ab.memeposting` is never credited: it contains the norm of `MEME`. */
  lemma DeadAbMemeposting(lower: string -> string, items: seq<string>)
    requires LowersAscii(lower)
    ensures Credit(Norms(lower), lower, items, 58) == 0
  {
    AbMemepostingParts();
    MemeCases();
    ShadowedByPart(lower, items, 7, 58, "ab.", "meme", "posting");
  }

  /** Keywords 47 and 63 as listed, and how `fb.com` splits. */
  lemma FbComParts()
    ensures NoiseKeywords[47] == ".com" && AllAscii(".com")
    ensures NoiseKeywords[63] == "fb.com" && AllAscii("fb.com")
    ensures "fb.com" == "fb" + ".com" + ""
  {
    assert KeywordsC[15] == ".com";
    assert KeywordsD[15] == "fb.com";
  }

  /** `fb.com` is never credited: it contains the norm of `.com`. */
  lemma DeadFbCom(lower: string -> string, items: seq<string>)
    requires LowersAscii(lower)
    ensures Credit(Norms(lower), lower, items, 63) == 0
  {
    FbComParts();
    ShadowedByPart(lower, items, 47, 63, "fb", ".com", "");
  }

  /** Under ASCII lower-casing, eleven keywords are never credited, because
      the norm of an earlier keyword occurs inside theirs. */
  lemma DeadKeywords(lower: string -> string, items: seq<string>)
    requires LowersAscii(lower)
    ensures forall j :: j in {12, 17, 18, 27, 28, 35, 38, 39, 43, 58, 63} ==> Credit(Norms(lower), lower, items, j) == 0
  {
    DeadSagormeme(lower, items);
    DeadFerdoushShanto(lower, items);
    DeadFakibajibd(lower, items);
    DeadFMemes(lower, items);
    DeadBangleMeme(lower, items);
    DeadBanglatrollCom(lower, items);
    DeadMemefoxofficial(lower, items);
    DeadAsrafulMeme(lower, items);
    DeadFaizlami(lower, items);
    DeadAbMemeposting(lower, items);
    DeadFbCom(lower, items);
  }
}
