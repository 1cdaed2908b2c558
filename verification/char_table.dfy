/** CHAR_REPLACEMENTS and the `text.translate(CHAR_REPLACEMENTS)` pass of
    `normalize`: each code point is looked up on its own and replaced by its
    image, or kept when it has none. */
module CharTable {
  import opened Wrappers
  import opened Text

  /** What every entry of the table satisfies: the key is not ASCII and the
      image is a non-empty ASCII string. */
  predicate FoldsToAscii(key: char, image: string) {
    !IsAscii(key) && |image| > 0 && forall i :: 0 <= i < |image| ==> IsAscii(image[i])
  }

  /** The dict literal of text_normalizer.py:13-525 (`str.maketrans` of it),
      written as consecutive blocks of source lines. No key occurs in two
      blocks, so the first block that knows `c` gives its one image. The
      blocks are gathered into four groups, in source order, so that a
      lookup can be followed one group at a time. */
  function Image(c: char): (r: Option<string>)
    ensures r.Some? ==> FoldsToAscii(c, r.value)
  {
    ImageFirst(c).Or(ImageSecond(c)).Or(ImageThird(c)).Or(ImageFourth(c))
  }

  /** Superscript digits and the letters A to D. */
  function ImageFirst(c: char): (r: Option<string>)
    ensures r.Some? ==> FoldsToAscii(c, r.value)
  {
    SuperscriptDigits(c)
      .Or(CapitalA(c))
      .Or(SmallA(c))
      .Or(LetterB(c))
      .Or(LetterC(c))
      .Or(LetterD(c))
  }

  /** The letters E to L. */
  function ImageSecond(c: char): (r: Option<string>)
    ensures r.Some? ==> FoldsToAscii(c, r.value)
  {
    CapitalE(c)
      .Or(SmallE(c))
      .Or(LetterF(c))
      .Or(LetterG(c))
      .Or(LetterH(c))
      .Or(LetterI(c))
      .Or(LetterJ(c))
      .Or(LetterK(c))
      .Or(LetterL(c))
  }

  /** The letters M to S. */
  function ImageThird(c: char): (r: Option<string>)
    ensures r.Some? ==> FoldsToAscii(c, r.value)
  {
    LetterM(c)
      .Or(LetterN(c))
      .Or(CapitalO(c))
      .Or(SmallO(c))
      .Or(LetterP(c))
      .Or(LetterR(c))
      .Or(LetterS(c))
  }

  /** The letters T to Z and the ligatures and stroked letters. */
  function ImageFourth(c: char): (r: Option<string>)
    ensures r.Some? ==> FoldsToAscii(c, r.value)
  {
    LetterT(c)
      .Or(CapitalU(c))
      .Or(SmallU(c))
      .Or(LetterV(c))
      .Or(LetterW(c))
      .Or(LetterX(c))
      .Or(LetterY(c))
      .Or(LetterZ(c))
      .Or(LigaturesAndStrokes(c))
  }

  /** What `str.translate` puts in place of one code point, for a table
      given as its lookup. */
  function FoldBy(image: char -> Option<string>, c: char): string {
    match image(c)
    case Some(v) => v
    case None => [c]
  }

  /** `s.translate(table)` for a table given as its lookup. */
  function TranslateBy(image: char -> Option<string>, s: string): string
    decreases |s|
  {
    if |s| == 0 then "" else FoldBy(image, s[0]) + TranslateBy(image, s[1..])
  }

  /** No image is empty. */
  predicate ImagesNonEmpty(image: char -> Option<string>) {
    forall c :: image(c).Some? ==> |image(c).value| > 0
  }

  /** No image holds a key. */
  predicate ImagesUnmapped(image: char -> Option<string>) {
    forall c, i :: image(c).Some? && 0 <= i < |image(c).value| ==> image(image(c).value[i]).None?
  }

  lemma {:induction false} TranslateByLonger(image: char -> Option<string>, s: string)
    requires ImagesNonEmpty(image)
    ensures |TranslateBy(image, s)| >= |s|
    decreases |s|
  {
    if |s| > 0 {
      TranslateByLonger(image, s[1..]);
    }
  }

  lemma {:induction false} TranslateByAppend(image: char -> Option<string>, a: string, b: string)
    ensures TranslateBy(image, a + b) == TranslateBy(image, a) + TranslateBy(image, b)
    decreases |a|
  {
    if |a| == 0 {
      assert a + b == b;
    } else {
      assert (a + b)[0] == a[0];
      assert (a + b)[1..] == a[1..] + b;
      TranslateByAppend(image, a[1..], b);
    }
  }

  lemma {:induction false} TranslateByUnmapped(image: char -> Option<string>, s: string)
    requires forall i :: 0 <= i < |s| ==> image(s[i]).None?
    ensures TranslateBy(image, s) == s
    decreases |s|
  {
    if |s| > 0 {
      TranslateByUnmapped(image, s[1..]);
      assert s == [s[0]] + s[1..];
    }
  }

  lemma {:induction false} TranslateByLeavesNoKey(image: char -> Option<string>, s: string)
    requires ImagesUnmapped(image)
    ensures forall i :: 0 <= i < |TranslateBy(image, s)| ==> image(TranslateBy(image, s)[i]).None?
    decreases |s|
  {
    if |s| > 0 {
      TranslateByLeavesNoKey(image, s[1..]);
      var head := FoldBy(image, s[0]);
      var tail := TranslateBy(image, s[1..]);
      var r := head + tail;
      assert TranslateBy(image, s) == r;
      forall i | 0 <= i < |r|
        ensures image(r[i]).None?
      {
        if i < |head| {
          assert r[i] == head[i];
          if image(s[0]).Some? {
            assert head == image(s[0]).value;
          }
        } else {
          assert r[i] == tail[i - |head|];
        }
      }
    }
  }

  /** The table's images are non-empty ASCII, and no key is ASCII. */
  lemma TableImages()
    ensures ImagesNonEmpty(Image) && ImagesUnmapped(Image)
  {
    forall c, i | Image(c).Some? && 0 <= i < |Image(c).value|
      ensures Image(Image(c).value[i]).None?
    {
      assert IsAscii(Image(c).value[i]);
    }
  }

  /** `s.translate(CHAR_REPLACEMENTS)`. No code point is dropped: every image
      is non-empty. */
  function Translate(s: string): (r: string)
    ensures |r| >= |s|
  {
    TableImages();
    TranslateByLonger(Image, s);
    TranslateBy(Image, s)
  }

  /** The output holds no key of the table: images are ASCII and no key is. */
  lemma TranslateLeavesNoKey(s: string)
    ensures forall i :: 0 <= i < |Translate(s)| ==> Image(Translate(s)[i]).None?
  {
    TableImages();
    TranslateByLeavesNoKey(Image, s);
  }

  /** The pass works code point by code point: it distributes over concatenation... */
  lemma TranslateAppend(a: string, b: string)
    ensures Translate(a + b) == Translate(a) + Translate(b)
  {
    TranslateByAppend(Image, a, b);
  }

  /** ...and one code point becomes its image when it has one and stays otherwise. */
  lemma TranslateOne(c: char)
    ensures Image(c).Some? ==> Translate([c]) == Image(c).value
    ensures Image(c).None? ==> Translate([c]) == [c]
  {
    assert TranslateBy(Image, [c]) == FoldBy(Image, c) + TranslateBy(Image, []);
  }

  /** Text made only of code points the table does not know passes unchanged. */
  lemma TranslateUnmapped(s: string)
    requires forall i :: 0 <= i < |s| ==> Image(s[i]).None?
    ensures Translate(s) == s
  {
    TranslateByUnmapped(Image, s);
  }

  /** Applying the table twice is applying it once. */
  lemma TranslateIdempotent(s: string)
    ensures Translate(Translate(s)) == Translate(s)
  {
    TranslateLeavesNoKey(s);
    TranslateUnmapped(Translate(s));
  }

  /** Entries as the source writes them: two capital letters fold to lower
      case, and the IJ ligatures fold to two letters (which lengthens the
      text). */
  lemma EntriesAsWritten()
    ensures Image('\U{00DD}') == Some("y")
    ensures Image('\U{0160}') == Some("s")
    ensures Image('\U{0132}') == Some("IJ")
    ensures Image('\U{0133}') == Some("ij")
  {
    YAcuteImage();
    SCaronImage();
    CapitalIJImage();
    SmallIJImage();
  }

  /* Each entry above is followed through the groups: the groups before its
     own do not know the code point, and its own group gives the image. */

  /** Y with acute is in the fourth group of blocks, and no earlier group knows it. */
  lemma YAcuteImage()
    ensures Image('\U{00DD}') == Some("y")
  {
    YAcuteMissesFirst();
    YAcuteMissesSecond();
    YAcuteMissesThird();
    YAcuteInFourth();
  }

  lemma YAcuteMissesFirst()
    ensures ImageFirst('\U{00DD}').None?
  {
  }

  lemma YAcuteMissesSecond()
    ensures ImageSecond('\U{00DD}').None?
  {
  }

  lemma YAcuteMissesThird()
    ensures ImageThird('\U{00DD}').None?
  {
  }

  /** S with caron is in the third group of blocks, and no earlier group knows it. */
  lemma SCaronImage()
    ensures Image('\U{0160}') == Some("s")
  {
    SCaronMissesFirst();
    SCaronMissesSecond();
    SCaronInThird();
  }

  lemma SCaronMissesFirst()
    ensures ImageFirst('\U{0160}').None?
  {
  }

  lemma SCaronMissesSecond()
    ensures ImageSecond('\U{0160}').None?
  {
  }

  /** The capital IJ ligature is in the fourth group of blocks, and no earlier group knows it. */
  lemma CapitalIJImage()
    ensures Image('\U{0132}') == Some("IJ")
  {
    CapitalIJMissesFirst();
    CapitalIJMissesSecond();
    CapitalIJMissesThird();
    CapitalIJInFourth();
  }

  lemma CapitalIJMissesFirst()
    ensures ImageFirst('\U{0132}').None?
  {
  }

  lemma CapitalIJMissesSecond()
    ensures ImageSecond('\U{0132}').None?
  {
  }

  lemma CapitalIJMissesThird()
    ensures ImageThird('\U{0132}').None?
  {
  }

  /** The small ij ligature is in the fourth group of blocks, and no earlier group knows it. */
  lemma SmallIJImage()
    ensures Image('\U{0133}') == Some("ij")
  {
    SmallIJMissesFirst();
    SmallIJMissesSecond();
    SmallIJMissesThird();
    SmallIJInFourth();
  }

  lemma SmallIJMissesFirst()
    ensures ImageFirst('\U{0133}').None?
  {
  }

  lemma SmallIJMissesSecond()
    ensures ImageSecond('\U{0133}').None?
  {
  }

  lemma SmallIJMissesThird()
    ensures ImageThird('\U{0133}').None?
  {
  }

  lemma YAcuteInFourth()
    ensures ImageFourth('\U{00DD}') == Some("y")
  {
  }

  lemma SCaronInThird()
    ensures ImageThird('\U{0160}') == Some("s")
  {
  }

  lemma CapitalIJInFourth()
    ensures ImageFourth('\U{0132}') == Some("IJ")
  {
  }

  lemma SmallIJInFourth()
    ensures ImageFourth('\U{0133}') == Some("ij")
  {
  }

  /** Lines 15-17 of the dict. */
  function SuperscriptDigits(c: char): (r: Option<string>)
    ensures r.Some? ==> FoldsToAscii(c, r.value)
  {
    match c
    case '¹' => Some("1")
    case '²' => Some("2")
    case '³' => Some("3")
    case _ => None
  }

  /** Lines 18-46 of the dict. */
  function CapitalA(c: char): (r: Option<string>)
    ensures r.Some? ==> FoldsToAscii(c, r.value)
  {
    match c
    case 'À' => Some("A")
    case 'Á' => Some("A")
    case 'Â' => Some("A")
    case 'Ã' => Some("A")
    case 'Ä' => Some("A")
    case 'Å' => Some("A")
    case 'Ā' => Some("A")
    case 'Ă' => Some("A")
    case 'Ą' => Some("A")
    case 'Ǎ' => Some("A")
    case 'Ǟ' => Some("A")
    case 'Ǡ' => Some("A")
    case 'Ǻ' => Some("A")
    case 'Ȁ' => Some("A")
    case 'Ȃ' => Some("A")
    case 'Ȧ' => Some("A")
    case 'Ḁ' => Some("A")
    case 'Ạ' => Some("A")
    case 'Ả' => Some("A")
    case 'Ấ' => Some("A")
    case 'Ầ' => Some("A")
    case 'Ẩ' => Some("A")
    case 'Ẫ' => Some("A")
    case 'Ậ' => Some("A")
    case 'Ắ' => Some("A")
    case 'Ằ' => Some("A")
    case 'Ẳ' => Some("A")
    case 'Ẵ' => Some("A")
    case 'Ặ' => Some("A")
    case _ => None
  }

  /** Lines 47-76 of the dict. */
  function SmallA(c: char): (r: Option<string>)
    ensures r.Some? ==> FoldsToAscii(c, r.value)
  {
    match c
    case 'à' => Some("a")
    case 'á' => Some("a")
    case 'â' => Some("a")
    case 'ã' => Some("a")
    case 'ä' => Some("a")
    case 'å' => Some("a")
    case 'ª' => Some("a")
    case 'ā' => Some("a")
    case 'ă' => Some("a")
    case 'ą' => Some("a")
    case 'ǎ' => Some("a")
    case 'ǟ' => Some("a")
    case 'ǡ' => Some("a")
    case 'ǻ' => Some("a")
    case 'ȁ' => Some("a")
    case 'ȃ' => Some("a")
    case 'ȧ' => Some("a")
    case 'ḁ' => Some("a")
    case 'ạ' => Some("a")
    case 'ả' => Some("a")
    case 'ấ' => Some("a")
    case 'ầ' => Some("a")
    case 'ẩ' => Some("a")
    case 'ẫ' => Some("a")
    case 'ậ' => Some("a")
    case 'ắ' => Some("a")
    case 'ằ' => Some("a")
    case 'ẳ' => Some("a")
    case 'ẵ' => Some("a")
    case 'ặ' => Some("a")
    case _ => None
  }

  /** Lines 77-82 of the dict. */
  function LetterB(c: char): (r: Option<string>)
    ensures r.Some? ==> FoldsToAscii(c, r.value)
  {
    match c
    case 'Ḃ' => Some("B")
    case 'Ḅ' => Some("B")
    case 'Ḇ' => Some("B")
    case 'ḃ' => Some("b")
    case 'ḅ' => Some("b")
    case 'ḇ' => Some("b")
    case _ => None
  }

  /** Lines 83-94 of the dict. */
  function LetterC(c: char): (r: Option<string>)
    ensures r.Some? ==> FoldsToAscii(c, r.value)
  {
    match c
    case 'Ç' => Some("C")
    case 'Ć' => Some("C")
    case 'Ĉ' => Some("C")
    case 'Ċ' => Some("C")
    case 'Č' => Some("C")
    case 'Ḉ' => Some("C")
    case 'ç' => Some("c")
    case 'ć' => Some("c")
    case 'ĉ' => Some("c")
    case 'ċ' => Some("c")
    case 'č' => Some("c")
    case 'ḉ' => Some("c")
    case _ => None
  }

  /** Lines 95-109 of the dict. */
  function LetterD(c: char): (r: Option<string>)
    ensures r.Some? ==> FoldsToAscii(c, r.value)
  {
    match c
    case 'Ð' => Some("D")
    case 'Ď' => Some("D")
    case 'Đ' => Some("D")
    case 'Ḋ' => Some("D")
    case 'Ḍ' => Some("D")
    case 'Ḏ' => Some("D")
    case 'Ḑ' => Some("D")
    case 'Ḓ' => Some("D")
    case 'ď' => Some("d")
    case 'đ' => Some("d")
    case 'ḋ' => Some("d")
    case 'ḍ' => Some("d")
    case 'ḏ' => Some("d")
    case 'ḑ' => Some("d")
    case 'ḓ' => Some("d")
    case _ => None
  }

  /** Lines 110-134 of the dict. */
  function CapitalE(c: char): (r: Option<string>)
    ensures r.Some? ==> FoldsToAscii(c, r.value)
  {
    match c
    case 'È' => Some("E")
    case 'É' => Some("E")
    case 'Ê' => Some("E")
    case 'Ë' => Some("E")
    case 'Ē' => Some("E")
    case 'Ĕ' => Some("E")
    case 'Ė' => Some("E")
    case 'Ę' => Some("E")
    case 'Ě' => Some("E")
    case 'Ȅ' => Some("E")
    case 'Ȇ' => Some("E")
    case 'Ȩ' => Some("E")
    case 'Ḕ' => Some("E")
    case 'Ḗ' => Some("E")
    case 'Ḙ' => Some("E")
    case 'Ḛ' => Some("E")
    case 'Ḝ' => Some("E")
    case 'Ẹ' => Some("E")
    case 'Ẻ' => Some("E")
    case 'Ẽ' => Some("E")
    case 'Ế' => Some("E")
    case 'Ề' => Some("E")
    case 'Ể' => Some("E")
    case 'Ễ' => Some("E")
    case 'Ệ' => Some("E")
    case _ => None
  }

  /** Lines 135-159 of the dict. */
  function SmallE(c: char): (r: Option<string>)
    ensures r.Some? ==> FoldsToAscii(c, r.value)
  {
    match c
    case 'è' => Some("e")
    case 'é' => Some("e")
    case 'ê' => Some("e")
    case 'ë' => Some("e")
    case 'ē' => Some("e")
    case 'ĕ' => Some("e")
    case 'ė' => Some("e")
    case 'ę' => Some("e")
    case 'ě' => Some("e")
    case 'ȅ' => Some("e")
    case 'ȇ' => Some("e")
    case 'ȩ' => Some("e")
    case 'ḕ' => Some("e")
    case 'ḗ' => Some("e")
    case 'ḙ' => Some("e")
    case 'ḛ' => Some("e")
    case 'ḝ' => Some("e")
    case 'ẹ' => Some("e")
    case 'ẻ' => Some("e")
    case 'ẽ' => Some("e")
    case 'ế' => Some("e")
    case 'ề' => Some("e")
    case 'ể' => Some("e")
    case 'ễ' => Some("e")
    case 'ệ' => Some("e")
    case _ => None
  }

  /** Lines 160-161 of the dict. */
  function LetterF(c: char): (r: Option<string>)
    ensures r.Some? ==> FoldsToAscii(c, r.value)
  {
    match c
    case 'Ḟ' => Some("F")
    case 'ḟ' => Some("f")
    case _ => None
  }

  /** Lines 162-175 of the dict. */
  function LetterG(c: char): (r: Option<string>)
    ensures r.Some? ==> FoldsToAscii(c, r.value)
  {
    match c
    case 'Ĝ' => Some("G")
    case 'Ğ' => Some("G")
    case 'Ġ' => Some("G")
    case 'Ģ' => Some("G")
    case 'Ǧ' => Some("G")
    case 'Ǵ' => Some("G")
    case 'Ḡ' => Some("G")
    case 'ĝ' => Some("g")
    case 'ğ' => Some("g")
    case 'ġ' => Some("g")
    case 'ģ' => Some("g")
    case 'ǧ' => Some("g")
    case 'ǵ' => Some("g")
    case 'ḡ' => Some("g")
    case _ => None
  }

  /** Lines 176-192 of the dict. */
  function LetterH(c: char): (r: Option<string>)
    ensures r.Some? ==> FoldsToAscii(c, r.value)
  {
    match c
    case 'Ĥ' => Some("H")
    case 'Ħ' => Some("H")
    case 'Ȟ' => Some("H")
    case 'Ḣ' => Some("H")
    case 'Ḥ' => Some("H")
    case 'Ḧ' => Some("H")
    case 'Ḩ' => Some("H")
    case 'Ḫ' => Some("H")
    case 'ĥ' => Some("h")
    case 'ħ' => Some("h")
    case 'ȟ' => Some("h")
    case 'ḣ' => Some("h")
    case 'ḥ' => Some("h")
    case 'ḧ' => Some("h")
    case 'ḩ' => Some("h")
    case 'ḫ' => Some("h")
    case 'ẖ' => Some("h")
    case _ => None
  }

  /** Lines 193-224 of the dict. */
  function LetterI(c: char): (r: Option<string>)
    ensures r.Some? ==> FoldsToAscii(c, r.value)
  {
    match c
    case 'Ì' => Some("I")
    case 'Í' => Some("I")
    case 'Î' => Some("I")
    case 'Ï' => Some("I")
    case 'Ĩ' => Some("I")
    case 'Ī' => Some("I")
    case 'Ĭ' => Some("I")
    case 'Į' => Some("I")
    case 'İ' => Some("I")
    case 'Ǐ' => Some("I")
    case 'Ȉ' => Some("I")
    case 'Ȋ' => Some("I")
    case 'Ḭ' => Some("I")
    case 'Ḯ' => Some("I")
    case 'Ỉ' => Some("I")
    case 'Ị' => Some("I")
    case 'ì' => Some("i")
    case 'í' => Some("i")
    case 'î' => Some("i")
    case 'ï' => Some("i")
    case 'ĩ' => Some("i")
    case 'ī' => Some("i")
    case 'ĭ' => Some("i")
    case 'į' => Some("i")
    case 'ı' => Some("i")
    case 'ǐ' => Some("i")
    case 'ȉ' => Some("i")
    case 'ȋ' => Some("i")
    case 'ḭ' => Some("i")
    case 'ḯ' => Some("i")
    case 'ỉ' => Some("i")
    case 'ị' => Some("i")
    case _ => None
  }

  /** Lines 225-226 of the dict. */
  function LetterJ(c: char): (r: Option<string>)
    ensures r.Some? ==> FoldsToAscii(c, r.value)
  {
    match c
    case 'Ĵ' => Some("J")
    case 'ĵ' => Some("j")
    case _ => None
  }

  /** Lines 227-236 of the dict. */
  function LetterK(c: char): (r: Option<string>)
    ensures r.Some? ==> FoldsToAscii(c, r.value)
  {
    match c
    case 'Ķ' => Some("K")
    case 'Ǩ' => Some("K")
    case 'Ḱ' => Some("K")
    case 'Ḳ' => Some("K")
    case 'Ḵ' => Some("K")
    case 'ķ' => Some("k")
    case 'ǩ' => Some("k")
    case 'ḱ' => Some("k")
    case 'ḳ' => Some("k")
    case 'ḵ' => Some("k")
    case _ => None
  }

  /** Lines 237-254 of the dict. */
  function LetterL(c: char): (r: Option<string>)
    ensures r.Some? ==> FoldsToAscii(c, r.value)
  {
    match c
    case 'Ĺ' => Some("L")
    case 'Ļ' => Some("L")
    case 'Ľ' => Some("L")
    case 'Ŀ' => Some("L")
    case 'Ł' => Some("L")
    case 'Ḷ' => Some("L")
    case 'Ḹ' => Some("L")
    case 'Ḻ' => Some("L")
    case 'Ḽ' => Some("L")
    case 'ĺ' => Some("l")
    case 'ļ' => Some("l")
    case 'ľ' => Some("l")
    case 'ŀ' => Some("l")
    case 'ł' => Some("l")
    case 'ḷ' => Some("l")
    case 'ḹ' => Some("l")
    case 'ḻ' => Some("l")
    case 'ḽ' => Some("l")
    case _ => None
  }

  /** Lines 255-260 of the dict. */
  function LetterM(c: char): (r: Option<string>)
    ensures r.Some? ==> FoldsToAscii(c, r.value)
  {
    match c
    case 'Ḿ' => Some("M")
    case 'Ṁ' => Some("M")
    case 'Ṃ' => Some("M")
    case 'ḿ' => Some("m")
    case 'ṁ' => Some("m")
    case 'ṃ' => Some("m")
    case _ => None
  }

  /** Lines 261-278 of the dict. */
  function LetterN(c: char): (r: Option<string>)
    ensures r.Some? ==> FoldsToAscii(c, r.value)
  {
    match c
    case 'Ñ' => Some("N")
    case 'Ń' => Some("N")
    case 'Ņ' => Some("N")
    case 'Ň' => Some("N")
    case 'Ǹ' => Some("N")
    case 'Ṅ' => Some("N")
    case 'Ṇ' => Some("N")
    case 'Ṉ' => Some("N")
    case 'Ṋ' => Some("N")
    case 'ñ' => Some("n")
    case 'ń' => Some("n")
    case 'ņ' => Some("n")
    case 'ň' => Some("n")
    case 'ǹ' => Some("n")
    case 'ṅ' => Some("n")
    case 'ṇ' => Some("n")
    case 'ṉ' => Some("n")
    case 'ṋ' => Some("n")
    case _ => None
  }

  /** Lines 279-312 of the dict. */
  function CapitalO(c: char): (r: Option<string>)
    ensures r.Some? ==> FoldsToAscii(c, r.value)
  {
    match c
    case 'Ò' => Some("O")
    case 'Ó' => Some("O")
    case 'Ô' => Some("O")
    case 'Õ' => Some("O")
    case 'Ö' => Some("O")
    case 'Ō' => Some("O")
    case 'Ŏ' => Some("O")
    case 'Ő' => Some("O")
    case 'Ơ' => Some("O")
    case 'Ǒ' => Some("O")
    case 'Ǫ' => Some("O")
    case 'Ǭ' => Some("O")
    case 'Ȍ' => Some("O")
    case 'Ȏ' => Some("O")
    case 'Ȫ' => Some("O")
    case 'Ȭ' => Some("O")
    case 'Ȯ' => Some("O")
    case 'Ȱ' => Some("O")
    case 'Ṍ' => Some("O")
    case 'Ṏ' => Some("O")
    case 'Ṑ' => Some("O")
    case 'Ṓ' => Some("O")
    case 'Ọ' => Some("O")
    case 'Ỏ' => Some("O")
    case 'Ố' => Some("O")
    case 'Ồ' => Some("O")
    case 'Ổ' => Some("O")
    case 'Ỗ' => Some("O")
    case 'Ộ' => Some("O")
    case 'Ớ' => Some("O")
    case 'Ờ' => Some("O")
    case 'Ở' => Some("O")
    case 'Ỡ' => Some("O")
    case 'Ợ' => Some("O")
    case _ => None
  }

  /** Lines 313-346 of the dict. */
  function SmallO(c: char): (r: Option<string>)
    ensures r.Some? ==> FoldsToAscii(c, r.value)
  {
    match c
    case 'ò' => Some("o")
    case 'ó' => Some("o")
    case 'ô' => Some("o")
    case 'õ' => Some("o")
    case 'ö' => Some("o")
    case 'ō' => Some("o")
    case 'ŏ' => Some("o")
    case 'ő' => Some("o")
    case 'ơ' => Some("o")
    case 'ǒ' => Some("o")
    case 'ǫ' => Some("o")
    case 'ǭ' => Some("o")
    case 'ȍ' => Some("o")
    case 'ȏ' => Some("o")
    case 'ȫ' => Some("o")
    case 'ȭ' => Some("o")
    case 'ȯ' => Some("o")
    case 'ȱ' => Some("o")
    case 'ṍ' => Some("o")
    case 'ṏ' => Some("o")
    case 'ṑ' => Some("o")
    case 'ṓ' => Some("o")
    case 'ọ' => Some("o")
    case 'ỏ' => Some("o")
    case 'ố' => Some("o")
    case 'ồ' => Some("o")
    case 'ổ' => Some("o")
    case 'ỗ' => Some("o")
    case 'ộ' => Some("o")
    case 'ớ' => Some("o")
    case 'ờ' => Some("o")
    case 'ở' => Some("o")
    case 'ỡ' => Some("o")
    case 'ợ' => Some("o")
    case _ => None
  }

  /** Lines 347-350 of the dict. */
  function LetterP(c: char): (r: Option<string>)
    ensures r.Some? ==> FoldsToAscii(c, r.value)
  {
    match c
    case 'Ṕ' => Some("P")
    case 'Ṗ' => Some("P")
    case 'ṕ' => Some("p")
    case 'ṗ' => Some("p")
    case _ => None
  }

  /** Lines 351-368 of the dict. */
  function LetterR(c: char): (r: Option<string>)
    ensures r.Some? ==> FoldsToAscii(c, r.value)
  {
    match c
    case 'Ŕ' => Some("R")
    case 'Ŗ' => Some("R")
    case 'Ř' => Some("R")
    case 'Ȑ' => Some("R")
    case 'Ȓ' => Some("R")
    case 'Ṙ' => Some("R")
    case 'Ṛ' => Some("R")
    case 'Ṝ' => Some("R")
    case 'Ṟ' => Some("R")
    case 'ŕ' => Some("r")
    case 'ŗ' => Some("r")
    case 'ř' => Some("r")
    case 'ȑ' => Some("r")
    case 'ȓ' => Some("r")
    case 'ṙ' => Some("r")
    case 'ṛ' => Some("r")
    case 'ṝ' => Some("r")
    case 'ṟ' => Some("r")
    case _ => None
  }

  /** Lines 369-388 of the dict. */
  function LetterS(c: char): (r: Option<string>)
    ensures r.Some? ==> FoldsToAscii(c, r.value)
  {
    match c
    case 'Ś' => Some("S")
    case 'Ŝ' => Some("S")
    case 'Ş' => Some("S")
    case 'Š' => Some("s")
    case 'Ș' => Some("S")
    case 'Ṡ' => Some("S")
    case 'Ṣ' => Some("S")
    case 'Ṥ' => Some("S")
    case 'Ṧ' => Some("S")
    case 'Ṩ' => Some("S")
    case 'ś' => Some("s")
    case 'ŝ' => Some("s")
    case 'ş' => Some("s")
    case 'š' => Some("s")
    case 'ș' => Some("s")
    case 'ṡ' => Some("s")
    case 'ṣ' => Some("s")
    case 'ṥ' => Some("s")
    case 'ṧ' => Some("s")
    case 'ṩ' => Some("s")
    case _ => None
  }

  /** Lines 389-405 of the dict. */
  function LetterT(c: char): (r: Option<string>)
    ensures r.Some? ==> FoldsToAscii(c, r.value)
  {
    match c
    case 'Ţ' => Some("T")
    case 'Ť' => Some("T")
    case 'Ŧ' => Some("T")
    case 'Ț' => Some("T")
    case 'Ṫ' => Some("T")
    case 'Ṭ' => Some("T")
    case 'Ṯ' => Some("T")
    case 'Ṱ' => Some("T")
    case 'ţ' => Some("t")
    case 'ť' => Some("t")
    case 'ŧ' => Some("t")
    case 'ț' => Some("t")
    case 'ṫ' => Some("t")
    case 'ṭ' => Some("t")
    case 'ṯ' => Some("t")
    case 'ṱ' => Some("t")
    case 'ẗ' => Some("t")
    case _ => None
  }

  /** Lines 406-435 of the dict. */
  function CapitalU(c: char): (r: Option<string>)
    ensures r.Some? ==> FoldsToAscii(c, r.value)
  {
    match c
    case 'Ù' => Some("U")
    case 'Ú' => Some("U")
    case 'Û' => Some("U")
    case 'Ü' => Some("U")
    case 'Ũ' => Some("U")
    case 'Ū' => Some("U")
    case 'Ŭ' => Some("U")
    case 'Ů' => Some("U")
    case 'Ű' => Some("U")
    case 'Ų' => Some("U")
    case 'Ư' => Some("U")
    case 'Ǔ' => Some("U")
    case 'Ǖ' => Some("U")
    case 'Ǘ' => Some("U")
    case 'Ǚ' => Some("U")
    case 'Ǜ' => Some("U")
    case 'Ȕ' => Some("U")
    case 'Ȗ' => Some("U")
    case 'Ṳ' => Some("U")
    case 'Ṵ' => Some("U")
    case 'Ṷ' => Some("U")
    case 'Ṹ' => Some("U")
    case 'Ṻ' => Some("U")
    case 'Ụ' => Some("U")
    case 'Ủ' => Some("U")
    case 'Ứ' => Some("U")
    case 'Ừ' => Some("U")
    case 'Ử' => Some("U")
    case 'Ữ' => Some("U")
    case 'Ự' => Some("U")
    case _ => None
  }

  /** Lines 436-465 of the dict. */
  function SmallU(c: char): (r: Option<string>)
    ensures r.Some? ==> FoldsToAscii(c, r.value)
  {
    match c
    case 'ù' => Some("u")
    case 'ú' => Some("u")
    case 'û' => Some("u")
    case 'ü' => Some("u")
    case 'ũ' => Some("u")
    case 'ū' => Some("u")
    case 'ŭ' => Some("u")
    case 'ů' => Some("u")
    case 'ű' => Some("u")
    case 'ų' => Some("u")
    case 'ư' => Some("u")
    case 'ǔ' => Some("u")
    case 'ǖ' => Some("u")
    case 'ǘ' => Some("u")
    case 'ǚ' => Some("u")
    case 'ǜ' => Some("u")
    case 'ȕ' => Some("u")
    case 'ȗ' => Some("u")
    case 'ṳ' => Some("u")
    case 'ṵ' => Some("u")
    case 'ṷ' => Some("u")
    case 'ṹ' => Some("u")
    case 'ṻ' => Some("u")
    case 'ụ' => Some("u")
    case 'ủ' => Some("u")
    case 'ứ' => Some("u")
    case 'ừ' => Some("u")
    case 'ử' => Some("u")
    case 'ữ' => Some("u")
    case 'ự' => Some("u")
    case _ => None
  }

  /** Lines 466-469 of the dict. */
  function LetterV(c: char): (r: Option<string>)
    ensures r.Some? ==> FoldsToAscii(c, r.value)
  {
    match c
    case 'Ṽ' => Some("V")
    case 'Ṿ' => Some("V")
    case 'ṽ' => Some("v")
    case 'ṿ' => Some("v")
    case _ => None
  }

  /** Lines 470-482 of the dict. */
  function LetterW(c: char): (r: Option<string>)
    ensures r.Some? ==> FoldsToAscii(c, r.value)
  {
    match c
    case 'Ŵ' => Some("W")
    case 'Ẁ' => Some("W")
    case 'Ẃ' => Some("W")
    case 'Ẅ' => Some("W")
    case 'Ẇ' => Some("W")
    case 'Ẉ' => Some("W")
    case 'ŵ' => Some("w")
    case 'ẁ' => Some("w")
    case 'ẃ' => Some("w")
    case 'ẅ' => Some("w")
    case 'ẇ' => Some("w")
    case 'ẉ' => Some("w")
    case 'ẘ' => Some("w")
    case _ => None
  }

  /** Lines 483-486 of the dict. */
  function LetterX(c: char): (r: Option<string>)
    ensures r.Some? ==> FoldsToAscii(c, r.value)
  {
    match c
    case 'Ẋ' => Some("X")
    case 'Ẍ' => Some("X")
    case 'ẋ' => Some("x")
    case 'ẍ' => Some("x")
    case _ => None
  }

  /** Lines 487-505 of the dict. */
  function LetterY(c: char): (r: Option<string>)
    ensures r.Some? ==> FoldsToAscii(c, r.value)
  {
    match c
    case 'Ý' => Some("y")
    case 'Ŷ' => Some("Y")
    case 'Ÿ' => Some("Y")
    case 'Ȳ' => Some("Y")
    case 'Ẏ' => Some("Y")
    case 'Ỳ' => Some("Y")
    case 'Ỵ' => Some("Y")
    case 'Ỷ' => Some("Y")
    case 'Ỹ' => Some("Y")
    case 'ý' => Some("y")
    case 'ÿ' => Some("y")
    case 'ŷ' => Some("y")
    case 'ȳ' => Some("y")
    case 'ẏ' => Some("y")
    case 'ỳ' => Some("y")
    case 'ỵ' => Some("y")
    case 'ỷ' => Some("y")
    case 'ỹ' => Some("y")
    case 'ẙ' => Some("y")
    case _ => None
  }

  /** Lines 506-517 of the dict. */
  function LetterZ(c: char): (r: Option<string>)
    ensures r.Some? ==> FoldsToAscii(c, r.value)
  {
    match c
    case 'Ź' => Some("Z")
    case 'Ż' => Some("Z")
    case 'Ž' => Some("Z")
    case 'Ẑ' => Some("Z")
    case 'Ẓ' => Some("Z")
    case 'Ẕ' => Some("Z")
    case 'ź' => Some("z")
    case 'ż' => Some("z")
    case 'ž' => Some("z")
    case 'ẑ' => Some("z")
    case 'ẓ' => Some("z")
    case 'ẕ' => Some("z")
    case _ => None
  }

  /** Lines 518-523 of the dict. */
  function LigaturesAndStrokes(c: char): (r: Option<string>)
    ensures r.Some? ==> FoldsToAscii(c, r.value)
  {
    match c
    case 'Ĳ' => Some("IJ")
    case 'ĳ' => Some("ij")
    case 'ø' => Some("o")
    case 'Ø' => Some("O")
    case 'ɨ' => Some("i")
    case 'ð' => Some("d")
    case _ => None
  }
}
