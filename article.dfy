/** Full articles: the short id computed from the long tag-URI id, the
    folder/tag partition of the article's categories, the read and starred
    flags, and equality by crawl time. */
module Articles {
  import opened Wrappers
  import opened Text
  import opened StreamIds
  import opened LabelNameCaches

  /** "tag:google.com,2005:reader/item/", whose length (32) the short id
      skips without looking at the characters. */
  const LongIdPrefix: string := "tag:google.com,2005:reader/item/"
  const PrefixLength: nat := 32

  const TwoTo63: int := 0x8000_0000_0000_0000
  const TwoTo64: int := 0x1_0000_0000_0000_0000

  /** The exceptions on the way from a long id to a short id. */
  datatype ShortIdError =
    | LongIdTooShort       // String.Substring: ArgumentOutOfRangeException
    | EmptyHexText         // Convert.ToInt64: ArgumentOutOfRangeException
    | NegativeHex          // Convert.ToInt64: ArgumentException, no '-' in base 16
    | NoParsableDigits     // Convert.ToInt64: FormatException
    | ExtraJunkAtEnd       // Convert.ToInt64: FormatException
    | HexOverflow          // Convert.ToInt64: OverflowException

  /** The number of hexadecimal digits `s` starts with. */
  function HexRun(s: string): (k: nat)
    ensures k <= |s| && AllHexDigits(s[..k])
    ensures k < |s| ==> !IsHexDigit(s[k])
    ensures AllHexDigits(s) ==> k == |s|
  {
    if s == [] || !IsHexDigit(s[0]) then 0
    else
      var k := 1 + HexRun(s[1..]);
      assert forall j :: 1 <= j < k ==> s[..k][j] == s[1..][..k - 1][j - 1];
      k
  }

  /** A 64-bit pattern read as a two's-complement `long`. */
  function ToSigned64(v: nat): (n: int)
    requires v < TwoTo64
    ensures -TwoTo63 <= n < TwoTo63
    ensures n >= 0 ==> n == v
    ensures n < 0 ==> n + TwoTo64 == v
  {
    if v < TwoTo63 then v else v - TwoTo64
  }

  /** Convert.ToInt64(text, 16): an optional '+', an optional "0x" or "0X",
      then hexadecimal digits up to the end, read as an unsigned 64-bit
      number and reinterpreted as a signed one. */
  function ParseHex64(text: string): (r: Result<int, ShortIdError>)
    ensures r.Ok? ==> -TwoTo63 <= r.value < TwoTo63
    ensures text == [] <==> r == Err(EmptyHexText)
    ensures text != [] && text[0] == '-' <==> r == Err(NegativeHex)
  {
    if text == [] then Err(EmptyHexText)
    else if text[0] == '-' then Err(NegativeHex)
    else
      var afterSign := if text[0] == '+' then text[1..] else text;
      var digits :=
        if |afterSign| >= 2 && afterSign[0] == '0' && (afterSign[1] == 'x' || afterSign[1] == 'X')
        then afterSign[2..] else afterSign;
      var k := HexRun(digits);
      if k == 0 then Err(NoParsableDigits)
      else if HexValue(digits[..k]) >= TwoTo64 then Err(HexOverflow)
      else if k < |digits| then Err(ExtraJunkAtEnd)
      else
        assert digits[..k] == digits;
        Ok(ToSigned64(HexValue(digits)))
  }

  /** Article.ShortId: the text after the first 32 characters, read as a
      hexadecimal long and written back in decimal. */
  function ShortIdOf(longId: string): (r: Result<string, ShortIdError>)
    ensures |longId| < PrefixLength <==> r == Err(LongIdTooShort)
    ensures r.Ok? ==> |r.value| >= 1
  {
    if |longId| < PrefixLength then Err(LongIdTooShort)
    else
      match ParseHex64(longId[PrefixLength..])
      case Ok(n) => Ok(IntToString(n))
      case Err(e) => Err(e)
  }

  lemma Pow16To16()
    ensures Pow(16, 16) == TwoTo64
  {
    assert Pow(16, 4) == 0x1_0000;
    assert Pow(16, 8) == 0x1_0000 * Pow(16, 4) by {
      assert Pow(16, 8) == 16 * 16 * 16 * 16 * Pow(16, 4);
    }
    assert Pow(16, 12) == 0x1_0000 * Pow(16, 8) by {
      assert Pow(16, 12) == 16 * 16 * 16 * 16 * Pow(16, 8);
    }
    assert Pow(16, 16) == 0x1_0000 * Pow(16, 12) by {
      assert Pow(16, 16) == 16 * 16 * 16 * 16 * Pow(16, 12);
    }
  }

  /** Digits only: the text reads as the signed value of its digits, unless
      that value needs more than 64 bits. */
  lemma {:induction false} ParseDigits(digits: string)
    requires digits != [] && AllHexDigits(digits)
    ensures HexValue(digits) < TwoTo64 ==> ParseHex64(digits) == Ok(ToSigned64(HexValue(digits)))
    ensures HexValue(digits) >= TwoTo64 ==> ParseHex64(digits) == Err(HexOverflow)
  {
    assert digits[0] != '-' && digits[0] != '+';
    assert |digits| >= 2 ==> digits[1] != 'x' && digits[1] != 'X';
    assert digits[..|digits|] == digits;
  }

  /** Round trip: a long id made of any 32 characters and the 16-digit
      hexadecimal form of a non-negative long gives that long in decimal. */
  lemma ShortIdOfRendered(prefix: string, n: nat)
    requires |prefix| == PrefixLength && n < TwoTo63
    ensures n < Pow(16, 16)
    ensures ShortIdOf(prefix + ToHex(n, 16)) == Ok(IntToString(n))
  {
    Pow16To16();
    var hex := ToHex(n, 16);
    HexRoundTrip(n, 16);
    assert (prefix + hex)[PrefixLength..] == hex;
    ParseDigits(hex);
  }

  /** Different 16-digit hexadecimal suffixes of non-negative longs give
      different short ids. */
  lemma ShortIdInjective(prefix: string, m: nat, n: nat)
    requires |prefix| == PrefixLength && m < TwoTo63 && n < TwoTo63 && m != n
    ensures m < Pow(16, 16) && n < Pow(16, 16)
    ensures ShortIdOf(prefix + ToHex(m, 16)) != ShortIdOf(prefix + ToHex(n, 16))
  {
    ShortIdOfRendered(prefix, m);
    ShortIdOfRendered(prefix, n);
    if IntToString(m) == IntToString(n) {
      IntToStringInjective(m, n);
    }
  }

  /** The prefix is skipped by length, never compared. */
  lemma PrefixUnchecked(p: string, q: string, hex: string)
    requires |p| == PrefixLength && |q| == PrefixLength
    ensures ShortIdOf(p + hex) == ShortIdOf(q + hex)
  {
    assert (p + hex)[PrefixLength..] == hex;
    assert (q + hex)[PrefixLength..] == hex;
  }

  /** Leading hexadecimal zeros vanish from the decimal short id. */
  lemma LeadingZeroVanishes(prefix: string, hex: string)
    requires |prefix| == PrefixLength && hex != [] && AllHexDigits(hex)
    ensures ShortIdOf(prefix + ("0" + hex)) == ShortIdOf(prefix + hex)
  {
    HexLeadingZero(hex);
    assert (prefix + ("0" + hex))[PrefixLength..] == "0" + hex;
    assert (prefix + hex)[PrefixLength..] == hex;
    ParseDigits(hex);
    ParseDigits("0" + hex);
  }

  /** The high bit set: the short id is negative. */
  lemma HighBitNegative(prefix: string, v: nat)
    requires |prefix| == PrefixLength && TwoTo63 <= v < TwoTo64
    ensures v < Pow(16, 16)
    ensures ShortIdOf(prefix + ToHex(v, 16)) == Ok(IntToString(v - TwoTo64))
    ensures ShortIdOf(prefix + ToHex(v, 16)).value[0] == '-'
  {
    Pow16To16();
    var hex := ToHex(v, 16);
    HexRoundTrip(v, 16);
    assert (prefix + hex)[PrefixLength..] == hex;
    ParseDigits(hex);
  }

  /** A '-' after the prefix is an ArgumentException, not a negative id. */
  lemma MinusRejected(prefix: string, rest: string)
    requires |prefix| == PrefixLength
    ensures ShortIdOf(prefix + "-" + rest) == Err(NegativeHex)
  {
    assert (prefix + "-" + rest)[PrefixLength..] == "-" + rest;
  }

  /** The article id in the edit-tag test reads as 344691561. */
  lemma EditTagTestId(prefix: string)
    requires |prefix| == PrefixLength
    ensures ShortIdOf(prefix + "00000000148b9369") == Ok("344691561")
  {
    TestIdHex();
    ShortIdOfRendered(prefix, 0x148b9369);
    TestIdDecimal();
  }

  lemma TestIdHex()
    ensures 0x148b9369 < Pow(16, 16)
    ensures ToHex(0x148b9369, 16) == "00000000148b9369"
  {
    TestIdDigits();
    ToHexOfSmall(0x148b9369);
    EightZeros();
  }

  lemma TestIdDecimal()
    ensures IntToString(0x148b9369) == "344691561"
  {
    assert NatToString(34) == "34";
    assert NatToString(344) == NatToString(34) + "4";
    assert NatToString(3446) == NatToString(344) + "6";
    assert NatToString(34469) == NatToString(3446) + "9";
    assert NatToString(344691) == NatToString(34469) + "1";
    assert NatToString(3446915) == NatToString(344691) + "5";
    assert NatToString(34469156) == NatToString(3446915) + "6";
    assert NatToString(344691561) == NatToString(34469156) + "1";
  }

  /** The second article id of the edit-tag test reads as 344668222. */
  lemma EditTagSecondTestId(prefix: string)
    requires |prefix| == PrefixLength
    ensures ShortIdOf(prefix + "00000000148b383e") == Ok("344668222")
  {
    SecondIdHex();
    ShortIdOfRendered(prefix, 0x148b383e);
    SecondIdDecimal();
  }

  lemma SecondIdHex()
    ensures 0x148b383e < Pow(16, 16)
    ensures ToHex(0x148b383e, 16) == "00000000148b383e"
  {
    SecondIdDigits();
    ToHexOfSmall(0x148b383e);
    EightZeros();
  }

  lemma SecondIdDecimal()
    ensures IntToString(0x148b383e) == "344668222"
  {
    assert NatToString(34) == "34";
    assert NatToString(344) == NatToString(34) + "4";
    assert NatToString(3446) == NatToString(344) + "6";
    assert NatToString(34466) == NatToString(3446) + "6";
    assert NatToString(344668) == NatToString(34466) + "8";
    assert NatToString(3446682) == NatToString(344668) + "2";
    assert NatToString(34466822) == NatToString(3446682) + "2";
    assert NatToString(344668222) == NatToString(34466822) + "2";
  }

  lemma SecondIdDigits()
    ensures 0x148b383e < Pow(16, 8)
    ensures ToHex(0x148b383e, 8) == "148b383e"
  {
    Pow8();
    assert ToHex(0x1, 1) == "1";
    assert ToHex(0x14, 2) == ToHex(0x1, 1) + "4";
    assert ToHex(0x148, 3) == ToHex(0x14, 2) + "8";
    assert ToHex(0x148b, 4) == ToHex(0x148, 3) + "b";
    assert ToHex(0x148b3, 5) == ToHex(0x148b, 4) + "3";
    assert ToHex(0x148b38, 6) == ToHex(0x148b3, 5) + "8";
    assert ToHex(0x148b383, 7) == ToHex(0x148b38, 6) + "3";
    assert ToHex(0x148b383e, 8) == ToHex(0x148b383, 7) + "e";
  }

  lemma Pow8()
    ensures Pow(16, 8) == 0x1_0000_0000
  {
    assert Pow(16, 4) == 0x1_0000;
    assert Pow(16, 8) == 16 * 16 * 16 * 16 * Pow(16, 4);
  }

  lemma EightZeros()
    ensures Zeros(8) == "00000000"
  {
    assert Zeros(4) == "0000";
    assert Zeros(8) == Zeros(4) + "0000";
  }

  lemma TestIdDigits()
    ensures 0x148b9369 < Pow(16, 8)
    ensures ToHex(0x148b9369, 8) == "148b9369"
  {
    Pow8();
    assert ToHex(0x1, 1) == "1";
    assert ToHex(0x14, 2) == ToHex(0x1, 1) + "4";
    assert ToHex(0x148, 3) == ToHex(0x14, 2) + "8";
    assert ToHex(0x148b, 4) == ToHex(0x148, 3) + "b";
    assert ToHex(0x148b9, 5) == ToHex(0x148b, 4) + "9";
    assert ToHex(0x148b93, 6) == ToHex(0x148b9, 5) + "3";
    assert ToHex(0x148b936, 7) == ToHex(0x148b93, 6) + "6";
    assert ToHex(0x148b9369, 8) == ToHex(0x148b936, 7) + "9";
  }

  /** ToHex of a number below 16^8 is eight zeros then its eight digits. */
  lemma ToHexOfSmall(n: nat)
    requires n < Pow(16, 8)
    ensures n < Pow(16, 16)
    ensures ToHex(n, 16) == "00000000" + ToHex(n, 8)
  {
    PowMonotone(8, 16);
    ToHexZeros(n, 8, 8);
  }

  lemma {:induction false} PowMonotone(d: nat, e: nat)
    requires d <= e
    ensures Pow(16, d) <= Pow(16, e)
    decreases e
  {
    if d < e {
      PowMonotone(d, e - 1);
    }
  }

  lemma {:induction false} ToHexZeros(n: nat, width: nat, zeros: nat)
    requires n < Pow(16, width)
    ensures n < Pow(16, width + zeros)
    ensures ToHex(n, width + zeros) == Zeros(zeros) + ToHex(n, width)
    decreases width
  {
    PowMonotone(width, width + zeros);
    if width == 0 {
      ToHexOfZero(zeros);
    } else {
      ToHexZeros(n / 16, width - 1, zeros);
      assert width + zeros - 1 == width - 1 + zeros;
    }
  }

  function Zeros(k: nat): (s: string)
    ensures |s| == k
  {
    if k == 0 then [] else Zeros(k - 1) + "0"
  }

  lemma {:induction false} ToHexOfZero(width: nat)
    ensures ToHex(0, width) == Zeros(width)
  {
    if width > 0 {
      ToHexOfZero(width - 1);
    }
  }

  // ------------------------------------------------------------ categories

  /** The folder or tag names among the categories. */
  function LabelNames(categories: set<StreamId>): set<string>
  {
    set c | c in categories && c.LabelName().Some? :: c.LabelName().value
  }

  /** The label names that are known folder names. */
  function FolderNames(categories: set<StreamId>, knownFolders: set<string>): set<string>
  {
    set c | c in categories && c.LabelName().Some? && c.LabelName().value in knownFolders
      :: c.LabelName().value
  }

  /** The label names that are not known folder names: tags, or labels the
      cache does not know yet, assumed to be new tags. */
  function TagNames(categories: set<StreamId>, knownFolders: set<string>): set<string>
  {
    set c | c in categories && c.LabelName().Some? && c.LabelName().value !in knownFolders
      :: c.LabelName().value
  }

  /** Every label name lands in exactly one of the two sets, and only known
      folders are folders. */
  lemma Partition(categories: set<StreamId>, knownFolders: set<string>)
    ensures FolderNames(categories, knownFolders) + TagNames(categories, knownFolders) == LabelNames(categories)
    ensures FolderNames(categories, knownFolders) * TagNames(categories, knownFolders) == {}
    ensures FolderNames(categories, knownFolders) <= knownFolders
    ensures forall name :: name in LabelNames(categories) ==>
      (name in FolderNames(categories, knownFolders) <==> name in knownFolders)
  {
    var f := FolderNames(categories, knownFolders);
    var t := TagNames(categories, knownFolders);
    var l := LabelNames(categories);
    assert f + t == l by {
      forall name | name in l
        ensures name in f + t
      {
        var c :| c in categories && c.LabelName().Some? && c.LabelName().value == name;
        if name in knownFolders {
          assert name in f;
        } else {
          assert name in t;
        }
      }
    }
    forall name | name in l
      ensures name in f <==> name in knownFolders
    {
      var c :| c in categories && c.LabelName().Some? && c.LabelName().value == name;
      if name in knownFolders {
        assert name in f;
      }
    }
  }

  /** A category's label name is a folder or a tag after the partition. */
  lemma LabelCategoryPlaced(categories: set<StreamId>, knownFolders: set<string>, name: string)
    requires StreamId.ForLabel(name) in categories
    ensures name in knownFolders ==> name in FolderNames(categories, knownFolders)
    ensures name !in knownFolders ==> name in TagNames(categories, knownFolders)
  {
    var c := StreamId.ForLabel(name);
    assert c.LabelName() == Some(name) by {
      assert LabelPrefix <= c.id;
      assert c.id[|LabelPrefix|..] == name;
    }
  }

  /** Categories that are not labels, such as the read and starred states,
      go into neither set. */
  lemma StatesIgnored(categories: set<StreamId>, knownFolders: set<string>, other: StreamId)
    requires other.LabelName().None?
    ensures FolderNames(categories + {other}, knownFolders) == FolderNames(categories, knownFolders)
    ensures TagNames(categories + {other}, knownFolders) == TagNames(categories, knownFolders)
  {
  }

  /** The read and starred states are not labels. */
  lemma ReadAndStarredAreNotLabels()
    ensures StreamId.Read.LabelName().None? && StreamId.Starred.LabelName().None?
  {
    assert StreamId.Read.id[..|LabelPrefix|] != LabelPrefix by {
      assert StreamId.Read.id[7] == 's';
    }
    assert StreamId.Starred.id[..|LabelPrefix|] != LabelPrefix by {
      assert StreamId.Starred.id[7] == 's';
    }
  }

  /** Adding one category to the scanned set adds its label, if any, to the
      matching side. */
  lemma ScanStep(done: set<StreamId>, c: StreamId, knownFolders: set<string>)
    ensures FolderNames(done + {c}, knownFolders) ==
      FolderNames(done, knownFolders)
      + (if c.LabelName().Some? && c.LabelName().value in knownFolders then {c.LabelName().value} else {})
    ensures TagNames(done + {c}, knownFolders) ==
      TagNames(done, knownFolders)
      + (if c.LabelName().Some? && c.LabelName().value !in knownFolders then {c.LabelName().value} else {})
  {
  }

  class Article {
    const longId: string
    /** CrawlTime, in UTC ticks. */
    const crawlTime: int
    const categories: set<StreamId>
    var folders: set<string>
    var tags: set<string>

    constructor (longId: string, crawlTime: int, categories: set<StreamId>)
      ensures this.longId == longId && this.crawlTime == crawlTime && this.categories == categories
      ensures folders == {} && tags == {}
    {
      this.longId := longId;
      this.crawlTime := crawlTime;
      this.categories := categories;
      folders := {};
      tags := {};
    }

    function ShortId(): Result<string, ShortIdError>
    {
      ShortIdOf(longId)
    }

    /** Scans the categories, putting each label name into the folders when
        the cache's folder set holds it and into the tags otherwise, then
        replaces both sets. */
    method SetCategories(labels: Labels)
      modifies this
      ensures folders == FolderNames(categories, labels.folders.names)
      ensures tags == TagNames(categories, labels.folders.names)
      ensures folders <= labels.folders.names && folders * tags == {}
      ensures folders + tags == LabelNames(categories)
    {
      var known := labels.folders.names;
      var newFolders: set<string> := {};
      var newTags: set<string> := {};
      var remaining := categories;
      while remaining != {}
        invariant remaining <= categories
        invariant newFolders == FolderNames(categories - remaining, known)
        invariant newTags == TagNames(categories - remaining, known)
        decreases remaining
      {
        var category :| category in remaining;
        ScanStep(categories - remaining, category, known);
        assert (categories - remaining) + {category} == categories - (remaining - {category});
        match category.LabelName() {
          case Some(labelName) =>
            if labelName in known {
              newFolders := newFolders + {labelName};
            } else {
              newTags := newTags + {labelName};
            }
          case None =>
        }
        remaining := remaining - {category};
      }
      assert categories - remaining == categories;
      folders := newFolders;
      tags := newTags;
      Partition(categories, known);
    }

    predicate IsStarred()
    {
      StreamId.Starred in categories
    }

    predicate IsRead()
    {
      StreamId.Read in categories
    }

    /** Equal to another article exactly when it is the same object or was
        crawled at the same instant. */
    predicate Equals(other: Article?)
    {
      other != null && (this == other || crawlTime == other.crawlTime)
    }

    /** The hash of CrawlTime; the model keeps only that it is a function of
        the crawl time. */
    function HashCode(): int
    {
      crawlTime
    }
  }

  /** The state flags mirror the system streams of the article states. */
  lemma StateFlags(a: Article)
    ensures a.IsStarred() <==> StreamId.ForState(Some(ArticleState.Starred)).value in a.categories
    ensures a.IsRead() <==> StreamId.ForState(Some(ArticleState.Read)).value in a.categories
  {
  }

  /** Equality is an equivalence that needs only the crawl time, and equal
      articles hash alike. */
  lemma EqualsIsEquivalence(a: Article, b: Article, c: Article)
    ensures a.Equals(a)
    ensures !a.Equals(null)
    ensures a.Equals(b) <==> b.Equals(a)
    ensures a.Equals(b) && b.Equals(c) ==> a.Equals(c)
    ensures a.Equals(b) <==> a.crawlTime == b.crawlTime
    ensures a.Equals(b) ==> a.HashCode() == b.HashCode()
  {
  }
}
