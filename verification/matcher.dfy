/**
 The text localiser of the scan pipeline (components/Scanning.tsx): every dish
 the inference service returned is matched, independently and greedily,
 against the OCR engine's lines; the best line, if it is good enough, replaces
 the dish's placeholder bounding box by its own pixel box converted to the
 0..1000 scale.
 */
module Matcher {
  import opened Types
  import opened Text

  /** A line is accepted only with a score strictly above this. */
  const MatchThreshold: real := 0.4
  /** Bonus for a candidate whose length is close to the dish name's. */
  const WholeLineBonus: real := 0.2
  /** "Close" means the two lengths differ by fewer than this many characters. */
  const WholeLineSlack: int := 3
  /** Side of the normalised coordinate square. */
  const Scale: real := 1000.0

  /** An OCR pixel box `{x0, y0, x1, y1}`. */
  datatype PixelBox = PixelBox(x0: int, y0: int, x1: int, y1: int)

  /** One recognised line of text and where it sits on the photograph. */
  datatype OcrLine = OcrLine(text: string, bbox: PixelBox)

  /** The OCR lines together with the decoded photograph's natural size. */
  datatype OcrPage = OcrPage(lines: seq<OcrLine>, width: nat, height: nat)

  /** A decoded raster image has a positive natural width and height. */
  predicate WellFormed(page: OcrPage) {
    page.width > 0 && page.height > 0
  }

  /** A dish record as the inference service returns it (after parsing). */
  datatype InferredDish = InferredDish(
    name: string,
    originalName: string,
    englishName: Option<string>,
    description: string,
    tags: seq<string>,
    allergens: seq<string>,
    spiceLevel: SpiceLevel,
    category: string,
    boundingBox: Box,
    isOcrRefined: Option<bool>
  )

  /** Whitespace deleted, then lower-cased. */
  function Normalize(s: string): (r: string)
    ensures |r| <= |s|
    ensures forall i :: 0 <= i < |r| ==> !IsSpace(r[i]) && !IsUpperAscii(r[i])
  {
    Lower(DropSpaces(s))
  }

  function Min(a: int, b: int): int { if a <= b then a else b }
  function Max(a: int, b: int): int { if a <= b then b else a }

  /** The two lengths differ by fewer than `WholeLineSlack` characters. */
  predicate CloseLengths(a: nat, b: nat) {
    -WholeLineSlack < a - b < WholeLineSlack
  }

  /** `lo / hi` lies in the unit interval, strictly below 1 when `lo < hi`. */
  lemma RatioBounds(lo: nat, hi: nat)
    requires 0 < hi && lo <= hi
    ensures 0.0 <= lo as real / hi as real <= 1.0
    ensures lo < hi ==> lo as real / hi as real < 1.0
    ensures (lo as real / hi as real) * hi as real == lo as real
  {
    var ratio := lo as real / hi as real;
    assert ratio * hi as real == lo as real;
    assert ratio > 1.0 ==> ratio * hi as real > 1.0 * hi as real;
    assert ratio >= 1.0 ==> ratio * hi as real >= 1.0 * hi as real;
  }

  /** `min(len)/max(len)`, plus the bonus when the lengths are close. Both
      strings empty gives `0/0`, which is NaN in the source: `None` here. */
  function Score(name: string, line: string): (r: Option<real>)
    ensures r.None? <==> |name| == 0 && |line| == 0
    ensures r.Some? ==> 0.0 <= r.value <= 1.0 + WholeLineBonus
    ensures r.Some? ==> (r.value == 1.0 + WholeLineBonus <==> |name| == |line|)
    ensures r.Some? && |name| != |line| ==> r.value < 1.0 + WholeLineBonus
    ensures r.Some? ==>
      var bonus := if CloseLengths(|name|, |line|) then WholeLineBonus else 0.0;
      (r.value - bonus) * Max(|name|, |line|) as real == Min(|name|, |line|) as real
  {
    var lo, hi := Min(|name|, |line|), Max(|name|, |line|);
    if hi == 0 then None
    else
      var ratio := lo as real / hi as real;
      RatioBounds(lo, hi);
      var bonus := if CloseLengths(|name|, |line|) then WholeLineBonus else 0.0;
      assert (ratio + bonus) - bonus == ratio;
      assert |name| == |line| <==> lo == hi;
      assert lo == hi ==> ratio == 1.0 && bonus == WholeLineBonus;
      assert lo < hi ==> ratio + bonus < 1.0 + WholeLineBonus;
      Some(ratio + bonus)
  }

  /** One of the two normalised strings is a substring of the other. */
  predicate IsCandidate(name: string, line: string) {
    Contains(line, name) || Contains(name, line)
  }

  /** The score a line can compete with: `None` when it is not a candidate or
      its score is NaN, neither of which ever compares greater than anything. */
  function LineScore(name: string, line: OcrLine): (r: Option<real>)
    ensures r.Some? ==> IsCandidate(name, Normalize(line.text))
  {
    var text := Normalize(line.text);
    if IsCandidate(name, text) then Score(name, text) else None
  }

  /** The running best of the scan: the chosen line's index and its score. */
  datatype Pick = Pick(index: Option<nat>, score: real)

  /** Line `k` is the first line whose score is the greatest, and positive. */
  predicate IsFirstBest(name: string, lines: seq<OcrLine>, k: int) {
    && 0 <= k < |lines|
    && LineScore(name, lines[k]).Some?
    && LineScore(name, lines[k]).value > 0.0
    && (forall j :: 0 <= j < k && LineScore(name, lines[j]).Some? ==>
          LineScore(name, lines[j]).value < LineScore(name, lines[k]).value)
    && (forall j :: 0 <= j < |lines| && LineScore(name, lines[j]).Some? ==>
          LineScore(name, lines[j]).value <= LineScore(name, lines[k]).value)
  }

  /** The `forEach` over the lines, starting from score 0 with no line, and
      replacing the best only on a strictly greater score. */
  function BestLine(name: string, lines: seq<OcrLine>): (p: Pick)
    ensures p.index.None? ==> p.score == 0.0
    ensures p.index.None? ==>
      forall j :: 0 <= j < |lines| && LineScore(name, lines[j]).Some? ==>
        LineScore(name, lines[j]).value <= 0.0
    ensures p.index.Some? ==>
      IsFirstBest(name, lines, p.index.value) &&
      LineScore(name, lines[p.index.value]) == Some(p.score)
    decreases |lines|
  {
    if |lines| == 0 then Pick(None, 0.0)
    else
      var i := |lines| - 1;
      var acc := BestLine(name, lines[..i]);
      assert forall j :: 0 <= j < i ==> lines[..i][j] == lines[j];
      var s := LineScore(name, lines[i]);
      if s.Some? && s.value > acc.score then Pick(Some(i), s.value) else acc
  }

  /** The first best line is the one the scan picks: the pick is exactly the
      first line attaining the greatest positive score. */
  lemma FirstBestIsPicked(name: string, lines: seq<OcrLine>, k: int)
    requires IsFirstBest(name, lines, k)
    ensures BestLine(name, lines).index == Some(k)
  {
  }

  /** Of two lines with the same score the later one is never picked. */
  lemma TieKeepsEarliest(name: string, lines: seq<OcrLine>, a: int, b: int)
    requires 0 <= a < b < |lines|
    requires LineScore(name, lines[a]).Some? && LineScore(name, lines[a]) == LineScore(name, lines[b])
    ensures BestLine(name, lines).index != Some(b)
  {
  }

  /** A pixel coordinate within `[0, n]` lands within `[0, Scale]`, and order is kept. */
  lemma ScaleInRange(a: int, b: int, n: nat)
    requires n > 0
    ensures 0 <= a <= b <= n ==>
      0.0 <= a as real / n as real * Scale <= b as real / n as real * Scale <= Scale
  {
    if 0 <= a <= b <= n {
      var m := n as real;
      QuotientMonotone(0.0, a as real, m);
      QuotientMonotone(a as real, b as real, m);
      QuotientMonotone(b as real, m, m);
    }
  }

  /** Division by a positive number keeps order, and `m / m` is 1. */
  lemma QuotientMonotone(p: real, q: real, m: real)
    requires p <= q && 0.0 < m
    ensures p / m <= q / m && m / m == 1.0 && 0.0 / m == 0.0
  {
  }

  /** The pixel box on the 0..1000 scale, `[y0/H, x0/W, y1/H, x1/W]` times 1000. */
  function ToNormalized(b: PixelBox, width: nat, height: nat): (r: Box)
    requires width > 0 && height > 0
    ensures r.ymin * height as real == b.y0 as real * Scale
    ensures r.xmin * width as real == b.x0 as real * Scale
    ensures r.ymax * height as real == b.y1 as real * Scale
    ensures r.xmax * width as real == b.x1 as real * Scale
    ensures 0 <= b.y0 <= b.y1 <= height && 0 <= b.x0 <= b.x1 <= width ==> InUnitSquare(r)
  {
    var w, h := width as real, height as real;
    ScaleInRange(b.y0, b.y1, height);
    ScaleInRange(b.x0, b.x1, width);
    Box(b.y0 as real / h * Scale, b.x0 as real / w * Scale,
        b.y1 as real / h * Scale, b.x1 as real / w * Scale)
  }

  /** Some line of the page scores above the threshold against the dish. */
  predicate HasConfidentLine(d: InferredDish, page: OcrPage) {
    var name := Normalize(d.originalName);
    exists j :: 0 <= j < |page.lines| && LineScore(name, page.lines[j]).Some? &&
      LineScore(name, page.lines[j]).value > MatchThreshold
  }

  /** One dish, matched against the page. A refined dish differs from the input
      only by `isOcrRefined = true` and the first best line's box; any other dish
      comes back field for field. */
  function Refine(d: InferredDish, page: OcrPage): (r: InferredDish)
    requires WellFormed(page)
    ensures !HasConfidentLine(d, page) ==> r == d
    ensures HasConfidentLine(d, page) ==>
      exists k :: IsFirstBest(Normalize(d.originalName), page.lines, k) &&
        r == d.(isOcrRefined := Some(true),
                boundingBox := ToNormalized(page.lines[k].bbox, page.width, page.height))
  {
    var name := Normalize(d.originalName);
    var p := BestLine(name, page.lines);
    if p.index.Some? && p.score > MatchThreshold then
      var k := p.index.value;
      d.(isOcrRefined := Some(true),
         boundingBox := ToNormalized(page.lines[k].bbox, page.width, page.height))
    else
      d
  }

  /** The whole list: OCR failure (`None`) leaves it untouched; otherwise each
      dish is refined on its own, in order. */
  function RefineAll(dishes: seq<InferredDish>, ocr: Option<OcrPage>): (r: seq<InferredDish>)
    requires ocr.Some? ==> WellFormed(ocr.value)
    ensures |r| == |dishes|
    ensures ocr.None? ==> r == dishes
    ensures ocr.Some? ==> forall i :: 0 <= i < |dishes| ==> r[i] == Refine(dishes[i], ocr.value)
  {
    match ocr
    case None => dishes
    case Some(page) => seq(|dishes|, i requires 0 <= i < |dishes| => Refine(dishes[i], page))
  }
}
