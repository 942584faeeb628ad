/**
 The feature builder: one line of text plus its typographic attributes
 becomes the fixed 15-column row the heading classifier was trained on.
 */
module Features {
  import opened Strings

  /** The words whose presence (case-insensitively) sets the keyword flag. */
  const Keywords: seq<string> := ["introduction", "abstract", "conclusion", "chapter"]

  /** The font-size bucket boundaries, in points, from the lowest up. */
  const TierThresholds: seq<real> := [14.0, 18.0, 22.0]

  /** The columns of a feature row, named; `Schema` fixes their order. */
  datatype Feature =
    | Size | Bold | Center | Italic | PageNumber | XStart
    | Length | Trimmed | Words | Digits | Colon
    | Caps | Keyword | AllUpper | SizeTierColumn

  /** Column order expected by the classifier. */
  const Schema: seq<Feature> := [
    Size, Bold, Center, Italic, PageNumber, XStart,
    Length, Trimmed, Words, Digits, Colon,
    Caps, Keyword, AllUpper, SizeTierColumn
  ]

  const ColumnCount: nat := 15

  datatype FeatureVector = FeatureVector(
    size: real, bold: int, center: int, italic: int, page: int, x: real,
    length: int, trimmed: int, words: int, digits: int, colon: int,
    capsRatio: real, keyword: int, allUpper: int, sizeTier: int)

  /** Python's `int(b)` for a boolean. */
  function Flag(b: bool): int {
    if b then 1 else 0
  }

  /** The four-bucket discretisation of the font size. */
  function SizeTier(size: real): (t: int)
    ensures 0 <= t <= 3
  {
    if size >= 22.0 then 3
    else if size >= 18.0 then 2
    else if size >= 14.0 then 1
    else 0
  }

  /** How many of the thresholds `ts` the size reaches. */
  function ThresholdsMet(size: real, ts: seq<real>): nat {
    if |ts| == 0 then 0
    else (if size >= ts[0] then 1 else 0) + ThresholdsMet(size, ts[1..])
  }

  /** The tier is the number of bucket boundaries the size reaches: 3 from
      22 up, 2 on [18, 22), 1 on [14, 18), 0 below 14. */
  lemma SizeTierCountsThresholds(size: real)
    ensures SizeTier(size) == ThresholdsMet(size, TierThresholds)
    ensures SizeTier(size) == 3 <==> size >= 22.0
    ensures SizeTier(size) == 2 <==> 18.0 <= size < 22.0
    ensures SizeTier(size) == 1 <==> 14.0 <= size < 18.0
    ensures SizeTier(size) == 0 <==> size < 14.0
  {
    var ts := TierThresholds;
    assert ts[1..][1..][1..] == [];
    assert ThresholdsMet(size, ts[1..][1..]) == (if size >= 22.0 then 1 else 0);
    assert ThresholdsMet(size, ts[1..]) == (if size >= 18.0 then 1 else 0) + ThresholdsMet(size, ts[1..][1..]);
  }

  /** A larger font never lands in a lower tier. */
  lemma SizeTierMonotone(a: real, b: real)
    requires a <= b
    ensures SizeTier(a) <= SizeTier(b)
  {
  }

  /** `sum(isupper) / max(len(text), 1)`: the divisor is the full length,
      spaces and punctuation included. */
  function CapsRatio(text: string): (r: real)
    ensures 0.0 <= r <= 1.0
  {
    CountUpperBounds(text);
    RatioBounds(CountUpper(text) as real, (if |text| > 1 then |text| else 1) as real);
    (CountUpper(text) as real) / (if |text| > 1 then |text| else 1) as real
  }

  /** The caps ratio lies in [0, 1]; it is 0 for the empty text, positive
      exactly when some character is upper case, and 1 exactly when every
      character is. */
  lemma CapsRatioRange(text: string)
    ensures 0.0 <= CapsRatio(text) <= 1.0
    ensures |text| == 0 ==> CapsRatio(text) == 0.0
    ensures CapsRatio(text) > 0.0 <==> HasUpper(text)
    ensures CapsRatio(text) == 1.0 <==> |text| > 0 && forall i :: 0 <= i < |text| ==> IsUpperChar(text[i])
  {
    CountUpperBounds(text);
    CountUpperAll(text);
    RatioBounds(CountUpper(text) as real, (if |text| > 1 then |text| else 1) as real);
  }

  /** A share of a positive whole lies in [0, 1], is positive exactly when
      the part is, and is 1 exactly when the part is the whole. */
  lemma RatioBounds(c: real, d: real)
    requires d >= 1.0 && 0.0 <= c <= d
    ensures 0.0 <= c / d <= 1.0
    ensures c / d > 0.0 <==> c > 0.0
    ensures c / d == 1.0 <==> c == d
  {
  }

  /** The count reaches the length exactly when every character is upper case. */
  lemma {:induction false} CountUpperAll(s: string)
    ensures CountUpper(s) == |s| <==> forall i :: 0 <= i < |s| ==> IsUpperChar(s[i])
  {
    if |s| > 0 {
      CountUpperAll(s[1..]);
      CountUpperBounds(s[1..]);
      if forall i :: 0 <= i < |s| ==> IsUpperChar(s[i]) {
        assert forall i :: 0 <= i < |s[1..]| ==> IsUpperChar(s[1..][i]) by {
          forall i | 0 <= i < |s[1..]| ensures IsUpperChar(s[1..][i]) {
            assert s[1..][i] == s[i + 1];
          }
        }
      }
      if CountUpper(s) == |s| {
        forall i | 0 <= i < |s| ensures IsUpperChar(s[i]) {
          if i > 0 {
            assert s[i] == s[1..][i - 1];
          }
        }
      }
    }
  }

  /** `any(kw in text.lower() for kw in Keywords)` */
  predicate HasKeyword(text: string) {
    exists k :: 0 <= k < |Keywords| && Contains(Lower(text), Keywords[k])
  }

  /** `build_feature_vector`: the 15 columns of one line. */
  function BuildFeatureVector(text: string, size: real, bold: bool, center: bool,
                              italic: bool, page: int, x: real): (fv: FeatureVector)
    ensures fv.length == |text| && 0.0 <= fv.capsRatio <= 1.0
  {
    FeatureVector(
      size, Flag(bold), Flag(center), Flag(italic), page, x,
      |text|, |Strip(text)|, WordCount(text),
      Flag(HasDigit(text)), Flag(':' in text),
      CapsRatio(text), Flag(HasKeyword(text)), Flag(IsUpperText(text)),
      SizeTier(size))
  }

  /** The attributes pass through, the flags are 0/1, stripping never
      lengthens the text, there are no words exactly when the stripped text
      is empty, the caps ratio lies in [0, 1], an all-upper-case text has a
      positive caps ratio, and the tier is positive exactly from 14 points. */
  lemma FeatureVectorBounds(text: string, size: real, bold: bool, center: bool,
                            italic: bool, page: int, x: real)
    ensures var fv := BuildFeatureVector(text, size, bold, center, italic, page, x);
      && fv.size == size && fv.page == page && fv.x == x && fv.length == |text|
      && fv.bold == Flag(bold) && fv.center == Flag(center) && fv.italic == Flag(italic)
      && 0 <= fv.trimmed <= fv.length
      && (fv.words == 0 <==> fv.trimmed == 0)
      && fv.digits in {0, 1} && fv.colon in {0, 1} && fv.keyword in {0, 1} && fv.allUpper in {0, 1}
      && 0.0 <= fv.capsRatio <= 1.0 && (|text| == 0 ==> fv.capsRatio == 0.0)
      && (fv.allUpper == 1 ==> fv.capsRatio > 0.0)
      && fv.sizeTier in {0, 1, 2, 3} && (fv.sizeTier >= 1 <==> size >= 14.0)
  {
    StripEmptyIff(text);
    WordCountZeroIff(text);
    CapsRatioRange(text);
  }

  /** The four text flags are set exactly when the text has a digit, has a
      colon, contains a keyword once lower-cased, or has an upper-case letter
      and no lower-case one. */
  lemma FeatureFlagsIff(text: string, size: real, bold: bool, center: bool,
                        italic: bool, page: int, x: real)
    ensures var fv := BuildFeatureVector(text, size, bold, center, italic, page, x);
      && (fv.digits == 1 <==> exists i :: 0 <= i < |text| && IsDigitChar(text[i]))
      && (fv.colon == 1 <==> ':' in text)
      && (fv.keyword == 1 <==>
            exists k, i :: 0 <= k < |Keywords| && OccursAt(Lower(text), Keywords[k], i))
      && (fv.allUpper == 1 <==>
            (exists i :: 0 <= i < |text| && IsUpperChar(text[i]))
            && forall i :: 0 <= i < |text| ==> !IsLowerChar(text[i]))
  {
    forall k | 0 <= k < |Keywords| {
      ContainsIff(Lower(text), Keywords[k]);
    }
  }

  /** The value of one named column. */
  function Value(fv: FeatureVector, f: Feature): real {
    match f
    case Size => fv.size
    case Bold => fv.bold as real
    case Center => fv.center as real
    case Italic => fv.italic as real
    case PageNumber => fv.page as real
    case XStart => fv.x
    case Length => fv.length as real
    case Trimmed => fv.trimmed as real
    case Words => fv.words as real
    case Digits => fv.digits as real
    case Colon => fv.colon as real
    case Caps => fv.capsRatio
    case Keyword => fv.keyword as real
    case AllUpper => fv.allUpper as real
    case SizeTierColumn => fv.sizeTier as real
  }

  /** The list `build_feature_vector` returns, as the classifier reads it. */
  function Row(fv: FeatureVector): seq<real> {
    [fv.size, fv.bold as real, fv.center as real, fv.italic as real, fv.page as real, fv.x,
     fv.length as real, fv.trimmed as real, fv.words as real, fv.digits as real, fv.colon as real,
     fv.capsRatio, fv.keyword as real, fv.allUpper as real, fv.sizeTier as real]
  }

  /** Every row has exactly one cell per schema column, each column named
      once, and cell i holds the value of column `Schema[i]`. */
  lemma RowFollowsSchema(fv: FeatureVector)
    ensures |Row(fv)| == |Schema| == ColumnCount
    ensures forall i, j :: 0 <= i < j < |Schema| ==> Schema[i] != Schema[j]
    ensures forall i :: 0 <= i < |Schema| ==> Row(fv)[i] == Value(fv, Schema[i])
  {
  }
}
