/**
 Properties of the text localiser: what normalisation ignores, and the
 matching outcomes on worked examples: a priced menu line, an unrelated line,
 a tie, and a short name that only the whole-line bonus lets through.
 */
module MatcherProperties {
  import opened Types
  import opened Text
  import opened Matcher

  lemma {:induction false} DropSpacesKeepsClean(s: string)
    requires forall i :: 0 <= i < |s| ==> !IsSpace(s[i])
    ensures DropSpaces(s) == s
  {
    if |s| > 0 {
      DropSpacesKeepsClean(s[1..]);
    }
  }

  lemma {:induction false} DropSpacesConcat(a: string, b: string)
    ensures DropSpaces(a + b) == DropSpaces(a) + DropSpaces(b)
  {
    if |a| > 0 {
      assert (a + b)[1..] == a[1..] + b;
      DropSpacesConcat(a[1..], b);
    } else {
      assert a + b == b;
    }
  }

  /** Normalisation distributes over concatenation. */
  lemma NormalizeConcat(a: string, b: string)
    ensures Normalize(a + b) == Normalize(a) + Normalize(b)
  {
    DropSpacesConcat(a, b);
    assert Lower(DropSpaces(a) + DropSpaces(b)) == Lower(DropSpaces(a)) + Lower(DropSpaces(b));
  }

  /** Normalising twice is normalising once. */
  lemma NormalizeIdempotent(s: string)
    ensures Normalize(Normalize(s)) == Normalize(s)
  {
    var r := Normalize(s);
    DropSpacesKeepsClean(r);
    assert Lower(r) == r;
  }

  /** A whitespace character anywhere in a name makes no difference. */
  lemma NormalizeIgnoresSpace(a: string, c: char, b: string)
    requires IsSpace(c)
    ensures Normalize(a + [c] + b) == Normalize(a + b)
  {
    NormalizeConcat(a + [c], b);
    NormalizeConcat(a, [c]);
    NormalizeConcat(a, b);
    assert DropSpaces([c]) == "";
  }

  /** Upper and lower case of a letter make no difference. */
  lemma NormalizeIgnoresCase(a: string, c: char, b: string)
    ensures Normalize(a + [c] + b) == Normalize(a + [LowerChar(c)] + b)
  {
    NormalizeConcat(a + [c], b);
    NormalizeConcat(a, [c]);
    NormalizeConcat(a + [LowerChar(c)], b);
    NormalizeConcat(a, [LowerChar(c)]);
    if IsSpace(c) {
      assert DropSpaces([c]) == "" == DropSpaces([LowerChar(c)]);
    } else {
      assert DropSpaces([c]) == [c];
      assert DropSpaces([LowerChar(c)]) == [LowerChar(c)];
    }
  }

  /** A word without whitespace normalises to its lower-case form. */
  lemma NormalizeWord(s: string, t: string)
    requires forall i :: 0 <= i < |s| ==> !IsSpace(s[i])
    requires Lower(s) == t
    ensures Normalize(s) == t
  {
    DropSpacesKeepsClean(s);
  }

  /** A single whitespace character normalises to nothing. */
  lemma NormalizeSpace(c: char)
    requires IsSpace(c)
    ensures Normalize([c]) == ""
  {
    assert DropSpaces([c]) == DropSpaces([c][1..]);
  }

  /** Normalisation of a concatenation from the normal forms of its parts. */
  lemma NormalizeJoin(a: string, b: string, na: string, nb: string)
    requires Normalize(a) == na && Normalize(b) == nb
    ensures Normalize(a + b) == na + nb
  {
    NormalizeConcat(a, b);
  }

  lemma WordsOfExample(a: string, b: string, c: string)
    requires a == "Kung" && b == "Pao" && c == "Chicken"
    ensures Normalize(a) == "kung" && Normalize(b) == "pao" && Normalize(c) == "chicken"
  {
    NormalizeWord(a, "kung");
    NormalizeWord(b, "pao");
    NormalizeWord(c, "chicken");
  }

  lemma SqueezedWord(s: string)
    requires s == "kungpaochicken"
    ensures Normalize(s) == s
  {
    NormalizeWord(s, s);
  }

  lemma SpacedAssembly(a: string, sp: string, b: string, sp': string, c: string)
    requires Normalize(a) == "kung" && Normalize(sp) == "" && Normalize(b) == "pao"
    requires Normalize(sp') == "" && Normalize(c) == "chicken"
    ensures Normalize(a + sp + b + sp' + c) == "kungpaochicken"
  {
    NormalizeJoin(a, sp, "kung", "");
    NormalizeJoin(a + sp, b, "kung", "pao");
    NormalizeJoin(a + sp + b, sp', "kungpao", "");
    NormalizeJoin(a + sp + b + sp', c, "kungpao", "chicken");
  }

  /** Example: a spaced, capitalised name and its squeezed
      lower-case form normalise identically. */
  lemma KungPaoExample(spaced: string, squeezed: string)
    requires spaced == "Kung Pao Chicken" && squeezed == "kungpaochicken"
    ensures Normalize(spaced) == Normalize(squeezed) == squeezed
  {
    SqueezedWord(squeezed);
    var a, sp, b, sp', c := spaced[..4], spaced[4..5], spaced[5..8], spaced[8..9], spaced[9..];
    WordsOfExample(a, b, c);
    NormalizeSpace(spaced[4]);
    NormalizeSpace(spaced[8]);
    assert sp == [spaced[4]] && sp' == [spaced[8]];
    SpacedAssembly(a, sp, b, sp', c);
    assert a + sp + b + sp' + c == spaced;
  }

  /** A fixture OCR line; its box spans x 100..300 and y 50..90 pixels. */
  function Fixture(text: string): OcrLine {
    OcrLine(text, PixelBox(100, 50, 300, 90))
  }

  /** A fixture dish as inference returns it, with the placeholder box. */
  function Placeholder(originalName: string): InferredDish {
    InferredDish("Kung Pao Chicken", originalName, Some("Kung Pao Chicken"), "", [], [],
                 Medium, "Main", Box(0.0, 0.0, 0.0, 0.0), None)
  }

  lemma PricedLineWords(name: string, price: string)
    requires name == "宫保鸡丁" && price == "¥38"
    ensures Normalize(name) == name && Normalize(price) == price
  {
    NormalizeWord(name, name);
    NormalizeWord(price, price);
  }

  /** A menu line holding the dish name and its price scores 4/7, above the
      threshold, so the dish takes that line's box. */
  lemma PricedLineIsAccepted(name: string, text: string)
    requires name == "宫保鸡丁" && text == "宫保鸡丁 ¥38"
    ensures Refine(Placeholder(name), OcrPage([Fixture(text)], 1000, 500)) ==
      Placeholder(name).(isOcrRefined := Some(true), boundingBox := Box(100.0, 100.0, 180.0, 300.0))
  {
    var page := OcrPage([Fixture(text)], 1000, 500);
    PricedLineWords(text[..4], text[5..]);
    NormalizeSpace(text[4]);
    assert text[4..5] == [text[4]];
    NormalizeJoin(text[..4], text[4..5], name, "");
    assert text[..4] + text[4..5] == text[..5] && text[..5] + text[5..] == text;
    NormalizeJoin(text[..5], text[5..], name, text[5..]);
    var line := Normalize(text);
    assert line == name + text[5..] && |line| == 7;
    assert OccursAt(line, name, 0);
    assert LineScore(name, page.lines[0]) == Some(4.0 / 7.0);
    assert HasConfidentLine(Placeholder(name), page);
  }

  /** A one-character dish name on its three-character priced line: the plain
      ratio 1/3 is below the threshold, and the whole-line bonus lifts it
      above, so the bonus alone decides that the dish takes the line's box. */
  lemma WholeLineBonusDecides(name: string, text: string)
    requires name == "粥" && text == "粥 ¥8"
    ensures Score(name, Normalize(text)) == Some(1.0 / 3.0 + WholeLineBonus)
    ensures 1.0 / 3.0 <= MatchThreshold < 1.0 / 3.0 + WholeLineBonus
    ensures Refine(Placeholder(name), OcrPage([Fixture(text)], 1000, 500)) ==
      Placeholder(name).(isOcrRefined := Some(true), boundingBox := Box(100.0, 100.0, 180.0, 300.0))
  {
    var page := OcrPage([Fixture(text)], 1000, 500);
    ShortPricedLine(name, text);
    var line := Normalize(text);
    assert OccursAt(line, name, 0);
    assert Normalize(name) == name by {
      NormalizeWord(name, name);
    }
    assert LineScore(name, page.lines[0]) == Some(1.0 / 3.0 + WholeLineBonus);
    assert HasConfidentLine(Placeholder(name), page);
  }

  /** The short priced line normalises to the name followed by the price. */
  lemma ShortPricedLine(name: string, text: string)
    requires name == "粥" && text == "粥 ¥8"
    ensures Normalize(text) == name + text[2..] && |Normalize(text)| == 3
  {
    NormalizeWord(text[..1], name);
    NormalizeWord(text[2..], text[2..]);
    NormalizeSpace(text[1]);
    assert text[1..2] == [text[1]];
    NormalizeJoin(text[..1], text[1..2], name, "");
    assert text[..1] + text[1..2] == text[..2] && text[..2] + text[2..] == text;
    NormalizeJoin(text[..2], text[2..], name, text[2..]);
  }

  /** The two-word line normalises to the words run together. */
  lemma TwoWordLine(text: string)
    requires text == "Dessert Menu"
    ensures Normalize(text) == "dessertmenu"
  {
    NormalizeWord(text[..7], "dessert");
    NormalizeWord(text[8..], "menu");
    NormalizeSpace(text[7]);
    assert text[7..8] == [text[7]];
    NormalizeJoin(text[..7], text[7..8], "dessert", "");
    assert text[..7] + text[7..8] == text[..8] && text[..8] + text[8..] == text;
    NormalizeJoin(text[..8], text[8..], "dessert", "menu");
  }

  lemma DessertMenuHasNoSoup(line: string, n: string)
    requires line == "dessertmenu" && n == "soup"
    ensures !Contains(line, n)
  {
    AbsentBigram(line, n);
  }

  /** A line that neither contains nor is contained in the name is no candidate:
      the placeholder box is kept. */
  lemma UnrelatedLineIsRejected(name: string, text: string)
    requires name == "Soup" && text == "Dessert Menu"
    ensures Refine(Placeholder(name), OcrPage([Fixture(text)], 1000, 500)) == Placeholder(name)
  {
    var page := OcrPage([Fixture(text)], 1000, 500);
    NormalizeWord(name, "soup");
    TwoWordLine(text);
    var n, line := Normalize(name), Normalize(text);
    assert n == "soup" && line == "dessertmenu";
    DessertMenuHasNoSoup(line, n);
    assert !OccursAt(n, line, 0);
    assert LineScore(n, page.lines[0]).None?;
  }

  /** Two lines that both score 1.2: the dish takes the first one's box. */
  lemma TieTakesFirstLine(name: string, first: string, second: string)
    requires name == "soup" && first == "Soup" && second == "SOUP"
    ensures var page := OcrPage([OcrLine(first, PixelBox(0, 0, 10, 10)),
                                 OcrLine(second, PixelBox(20, 20, 40, 40))], 100, 100);
      Refine(Placeholder(name), page).boundingBox == Box(0.0, 0.0, 100.0, 100.0)
  {
    var page := OcrPage([OcrLine(first, PixelBox(0, 0, 10, 10)),
                         OcrLine(second, PixelBox(20, 20, 40, 40))], 100, 100);
    NormalizeWord(name, "soup");
    NormalizeWord(first, "soup");
    NormalizeWord(second, "soup");
    assert OccursAt(name, name, 0);
    assert LineScore(name, page.lines[0]) == Some(1.2) == LineScore(name, page.lines[1]);
    assert IsFirstBest(name, page.lines, 0);
    FirstBestIsPicked(name, page.lines, 0);
  }
}
