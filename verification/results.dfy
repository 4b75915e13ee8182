/**
 The results screen (components/Results.tsx): how many chilli icons a spice
 level gets, the allergen initials, where a dish thumbnail is focused, the
 spotlight rectangle drawn over the photograph, the layout chosen for the
 number of dishes, the header texts, and which image a card shows.

 Percentages are on the 0..100 scale CSS uses; boxes are on the 0..1000
 scale of `Types.Box`.
 */
module ResultsScreen {
  import opened Types
  import opened Text
  import Scanning
  import Matcher

  // ---------------------------------------------------------------------
  // Spice and allergen icons
  // ---------------------------------------------------------------------

  /** How `renderSpiceLevel(level)` renders: `None` when it renders nothing,
      otherwise the number of chilli icons. */
  function SpiceIcons(level: string): (r: Option<nat>)
    ensures r.None? <==> level == "" || level == "None"
    ensures r.Some? ==> r.value <= 3
    ensures r.Some? && r.value > 0 <==> ParseSpice(level).Some? && ParseSpice(level) != Some(NotSpicy)
  {
    if level == "None" || level == "" then None
    else if level == "Mild" then Some(1)
    else if level == "Medium" then Some(2)
    else if level == "Hot" then Some(3)
    else Some(0)
  }

  /** The spice badge on a list thumbnail and in the detail view:
      `spiceLevel && spiceLevel !== 'None'`. */
  predicate ShowsSpiceBadge(level: string) {
    level != "" && level != "None"
  }

  /** The badge is shown exactly when the icon row renders something, and the
      four levels render four different ways, hotter levels with more icons. */
  lemma SpiceIconsRankLevels(a: SpiceLevel, b: SpiceLevel)
    ensures ShowsSpiceBadge(a.Name()) <==> SpiceIcons(a.Name()).Some?
    ensures SpiceIcons(a.Name()) == SpiceIcons(b.Name()) ==> a == b
    ensures a.Mild? && b.Medium? ==> SpiceIcons(a.Name()).value < SpiceIcons(b.Name()).value
    ensures a.Medium? && b.Hot? ==> SpiceIcons(a.Name()).value < SpiceIcons(b.Name()).value
  {
  }

  /** `a.charAt(0)`: the first character, or the empty string. */
  function Initial(a: string): (r: string)
    ensures |r| == if |a| == 0 then 0 else 1
    ensures StartsWith(a, r)
  {
    if |a| == 0 then "" else a[..1]
  }

  /** The allergen row of a list item: up to three initials and the `+`
      marker for more. */
  datatype AllergenRow = AllergenRow(initials: seq<string>, overflow: bool)

  /** `renderAllergenIcons(allergens)`: nothing for an empty list, else the
      initials of the first three allergens in order and a `+` iff more exist. */
  function AllergenIcons(allergens: seq<string>): (r: Option<AllergenRow>)
    ensures r.None? <==> |allergens| == 0
    ensures r.Some? ==>
      && |r.value.initials| == Matcher.Min(3, |allergens|)
      && (forall i :: 0 <= i < |r.value.initials| ==> r.value.initials[i] == Initial(allergens[i]))
      && (r.value.overflow <==> |allergens| > 3)
  {
    if |allergens| == 0 then None
    else
      var shown := allergens[..Matcher.Min(3, |allergens|)];
      Some(AllergenRow(seq(|shown|, i requires 0 <= i < |shown| => Initial(shown[i])), |allergens| > 3))
  }

  /** Once a list is longer than three, nothing added after it changes its
      allergen row: only the first three entries and "more than three" show. */
  lemma AllergenIconsIgnoreTail(a: seq<string>, b: seq<string>)
    requires |a| > 3
    ensures AllergenIcons(a + b) == AllergenIcons(a)
  {
    var r1, r2 := AllergenIcons(a + b).value, AllergenIcons(a).value;
    assert |r1.initials| == |r2.initials| == 3;
    forall i | 0 <= i < 3
      ensures r1.initials[i] == r2.initials[i]
    {
      assert (a + b)[i] == a[i];
    }
    assert r1.initials == r2.initials;
  }

  // ---------------------------------------------------------------------
  // Box geometry
  // ---------------------------------------------------------------------

  /** How a thumbnail is fitted: plain `cover`, or `cover` with the image
      position at `x% y%` (and a 1.2 zoom). */
  datatype ImageFit = Cover | Focused(x: real, y: real)

  /** `getThumbnailStyle(dish)`: menu dishes are only covered; other dishes
      with a box are focused on the box centre, converted to percent. */
  function ThumbnailStyle(d: Dish): (r: ImageFit)
    ensures Flag(d.isMenu) ==> r == Cover
    ensures r.Focused? <==> !Flag(d.isMenu) && d.boundingBox.Some?
    ensures r.Focused? ==>
      var b := d.boundingBox.value;
      && 2.0 * r.x == (b.xmin + b.xmax) / 10.0
      && 2.0 * r.y == (b.ymin + b.ymax) / 10.0
    ensures r.Focused? && InUnitSquare(d.boundingBox.value) ==>
      0.0 <= r.x <= 100.0 && 0.0 <= r.y <= 100.0
  {
    if Flag(d.isMenu) then Cover
    else match d.boundingBox
      case Some(b) => Focused((b.xmin + b.xmax) / 2.0 / 10.0, (b.ymin + b.ymax) / 2.0 / 10.0)
      case None => Cover
  }

  /** A rectangle positioned in percent of the photograph. */
  datatype Rect = Rect(top: real, left: real, height: real, width: real)

  /** The spotlight over the single dish card: drawn for a non-menu dish with a
      box, at the box's place on the photograph. */
  function Spotlight(d: Dish): (r: Option<Rect>)
    ensures r.Some? <==> !Flag(d.isMenu) && d.boundingBox.Some?
    ensures r.Some? ==>
      var b, s := d.boundingBox.value, r.value;
      && s.top == b.ymin / 10.0 && s.left == b.xmin / 10.0
      && s.top + s.height == b.ymax / 10.0 && s.left + s.width == b.xmax / 10.0
    ensures r.Some? && InUnitSquare(d.boundingBox.value) ==>
      var s := r.value;
      && 0.0 <= s.top && 0.0 <= s.height && s.top + s.height <= 100.0
      && 0.0 <= s.left && 0.0 <= s.width && s.left + s.width <= 100.0
  {
    if Flag(d.isMenu) then None
    else match d.boundingBox
      case Some(b) => Some(Rect(b.ymin / 10.0, b.xmin / 10.0, (b.ymax - b.ymin) / 10.0, (b.xmax - b.xmin) / 10.0))
      case None => None
  }

  /** The thumbnail helper and the spotlight helper agree: they apply under the
      same condition, and for an ordered box the focus is the centre of the
      spotlight. On screen the two never meet: the thumbnail is drawn only in the
      list, for more than one result, and the spotlight only on the single card. */
  lemma FocusIsSpotlightCentre(d: Dish)
    ensures ThumbnailStyle(d).Focused? <==> Spotlight(d).Some?
    ensures ThumbnailStyle(d).Focused? ==>
      var f, s := ThumbnailStyle(d), Spotlight(d).value;
      && f.x - s.left == s.left + s.width - f.x
      && f.y - s.top == s.top + s.height - f.y
    ensures ThumbnailStyle(d).Focused? && InUnitSquare(d.boundingBox.value) ==>
      var f, s := ThumbnailStyle(d), Spotlight(d).value;
      && s.left <= f.x <= s.left + s.width
      && s.top <= f.y <= s.top + s.height
  {
  }

  // ---------------------------------------------------------------------
  // Layout and header
  // ---------------------------------------------------------------------

  /** What the main area shows. */
  datatype Layout = EmptyMessage | SingleCard | ListView

  /** The layout for the results: the "No dishes identified." message, the
      big card for one dish, the list for more. */
  function LayoutFor(results: seq<Dish>): (r: Layout)
    ensures r == EmptyMessage <==> |results| == 0
    ensures r == SingleCard <==> |results| == 1
    ensures r == ListView <==> |results| > 1
  {
    if |results| == 0 then EmptyMessage
    else if |results| > 1 then ListView
    else SingleCard
  }

  /** The count line and the layout agree: the header says "Item" without
      an `s` exactly when the big single card shows. */
  lemma CountAgreesWithLayout(results: seq<Dish>)
    ensures EndsWith(CountLabel(|results|), "s") <==> LayoutFor(results) != SingleCard
    ensures LayoutFor(results) == ListView ==> EndsWith(CountLabel(|results|), "s")
  {
  }

  /** `isMenuScan`: the first dish says it came from a menu. */
  predicate IsMenuScan(results: seq<Dish>) {
    |results| > 0 && Flag(results[0].isMenu)
  }

  const MenuTitle: string := "Menu Translation"
  const DishTitle: string := "Dish Analysis"

  /** The header title. */
  function HeaderTitle(results: seq<Dish>): (r: string)
    ensures r == MenuTitle <==> IsMenuScan(results)
    ensures r == DishTitle <==> !IsMenuScan(results)
  {
    if IsMenuScan(results) then MenuTitle else DishTitle
  }

  /** The title depends on the first dish only: dishes added after it never
      change it. */
  lemma TitleFollowsFirstDish(first: Dish, rest: seq<Dish>)
    ensures HeaderTitle([first] + rest) == HeaderTitle([first])
    ensures HeaderTitle([first] + rest) == MenuTitle <==> Flag(first.isMenu)
  {
  }

  /** The count line under the title: `Found <n> Item`, with `s` unless n is 1. */
  function CountLabel(n: nat): (r: string)
    ensures StartsWith(r, "Found ")
    ensures EndsWith(r, "s") <==> n != 1
  {
    var tail := if n != 1 then " Items" else " Item";
    var r := "Found " + NatToString(n) + tail;
    Framed("Found ", NatToString(n), tail);
    assert r[|r| - 1..] == tail[|tail| - 1..];
    r
  }

  /** Different counts give different labels. */
  lemma CountLabelInjective(m: nat, n: nat)
    requires CountLabel(m) == CountLabel(n)
    ensures m == n
  {
    var a := CountLabel(m);
    var tail := if m != 1 then " Items" else " Item";
    assert (m != 1) == (n != 1);
    Framed("Found ", NatToString(m), tail);
    Framed("Found ", NatToString(n), tail);
    assert a[6..|a| - |tail|] == NatToString(m) == NatToString(n);
    NatToStringInjective(m, n);
  }

  // ---------------------------------------------------------------------
  // Images and the detail view
  // ---------------------------------------------------------------------

  /** The big card's image: a menu dish shows its own image; another dish
      shows the uploaded photograph when there is one, else its own image. */
  function CardImage(d: Dish, uploaded: Option<string>): (r: Option<string>)
    ensures Flag(d.isMenu) ==> r == d.image
    ensures r != d.image ==> r == uploaded && uploaded != Some("")
    ensures !Flag(d.isMenu) && uploaded.Some? && uploaded.value != "" ==> r == uploaded
  {
    if Flag(d.isMenu) then d.image
    else if uploaded.Some? && uploaded.value != "" then uploaded
    else d.image
  }

  /** The two images the detail view can show: the dish's own (`food`) or the
      uploaded photograph (`scan`). */
  datatype ViewMode = Food | Scan

  /** The view a list item opens in. */
  function OpenMode(d: Dish): (r: ViewMode)
    ensures r == Food <==> Flag(d.isMenu)
  {
    if Flag(d.isMenu) then Food else Scan
  }

  /** The food/menu switch of the detail view, shown for menu dishes only. */
  predicate ShowsModeSwitch(d: Dish) {
    Flag(d.isMenu)
  }

  /** A dish opens on its own image exactly when the view can be switched to
      the photograph; every other dish opens on the photograph for good. */
  lemma OpenModeFollowsSwitch(d: Dish)
    ensures OpenMode(d) == Food <==> ShowsModeSwitch(d)
    ensures !ShowsModeSwitch(d) ==> OpenMode(d) == Scan
  {
  }

  // ---------------------------------------------------------------------
  // What a completed scan looks like here
  // ---------------------------------------------------------------------

  /** The screen after a completed scan follows the model's own menu verdict,
      not the scan type the user picked: with at least one dish the header says
      "Menu Translation" exactly when the reply called the photo a menu, and the
      focus and spotlight helpers apply to a dish exactly when it did not. */
  lemma CompletedScanDisplay(inp: Scanning.ScanInput, parse: string -> Scanning.Attempt<Scanning.ParsedReply>, i: int)
    requires inp.ocr.Some? ==> Matcher.WellFormed(inp.ocr.value)
    requires Scanning.Analyze(inp, parse).Completed?
    requires 0 <= i < |Scanning.Analyze(inp, parse).dishes|
    ensures var p := parse(Scanning.CleanReply(inp.reply.value)).value;
      var ds := Scanning.Analyze(inp, parse).dishes;
      && (HeaderTitle(ds) == MenuTitle <==> Scanning.MenuOf(p))
      && (Spotlight(ds[i]).Some? <==> !Scanning.MenuOf(p))
      && (ThumbnailStyle(ds[i]).Focused? <==> !Scanning.MenuOf(p))
  {
    var p := parse(Scanning.CleanReply(inp.reply.value)).value;
    var ds := Scanning.Analyze(inp, parse).dishes;
    assert ds[i].isMenu == Some(Scanning.MenuOf(p));
    assert ds[0].isMenu == Some(Scanning.MenuOf(p));
    assert ds[i].boundingBox.Some?;
  }
}
