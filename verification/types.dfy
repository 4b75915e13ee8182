/**
 Shared datatypes of the application (types.ts): the closed enumerations
 (screens, languages, scan kinds, spice levels), the dish record every
 component passes around, and a saved dish.

 Optional TypeScript fields (`image?`, `boundingBox?`, ...) become `Option`s.
 */
module Types {

  /** A value that may be absent (`undefined` / `null` in the source). */
  datatype Option<+T> = None | Some(value: T) {
    /** The value, or `default` when absent. */
    function GetOr(default: T): T {
      match this
      case Some(v) => v
      case None => default
    }
  }

  /** The five screens of the single-page application. */
  datatype Screen = Home | Scanning | Results | History | Profile

  /** The eleven selectable target languages. */
  datatype Language =
    | English
    | ChineseSimplified
    | ChineseTraditional
    | Japanese
    | Korean
    | Spanish
    | French
    | Thai
    | Vietnamese
    | German
    | Italian

  /** What the photograph shows: a single prepared dish or a text menu. */
  datatype ScanType = DishScan | MenuScan

  /** The four spice levels; `NotSpicy` is the level the source spells "None". */
  datatype SpiceLevel = NotSpicy | Mild | Medium | Hot {
    /** The string the source stores and compares against. */
    function Name(): (r: string)
      ensures |r| > 0
    {
      match this
      case NotSpicy => "None"
      case Mild => "Mild"
      case Medium => "Medium"
      case Hot => "Hot"
    }
  }

  /** Reads a stored spice string back; only the four names are accepted. */
  function ParseSpice(s: string): (r: Option<SpiceLevel>)
    ensures r.Some? ==> r.value.Name() == s
    ensures forall l: SpiceLevel :: l.Name() == s ==> r == Some(l)
  {
    if s == "None" then Some(NotSpicy)
    else if s == "Mild" then Some(Mild)
    else if s == "Medium" then Some(Medium)
    else if s == "Hot" then Some(Hot)
    else None
  }

  /** A user's profile (a `profiles` row). The app holds whatever part of it
      it has read or written, so every field may be missing. */
  datatype UserProfile = UserProfile(
    id: Option<string>,
    updatedAt: Option<string>,
    fullName: Option<string>,
    avatarUrl: Option<string>,
    defaultLanguage: Option<Language>,
    chefCardLanguage: Option<Language>,
    allergens: Option<seq<string>>,
    dietaryNotes: Option<string>
  )

  /** The profile with no field present: `{}`. */
  const NoProfileFields: UserProfile := UserProfile(None, None, None, None, None, None, None, None)

  /** A bounding box `[ymin, xmin, ymax, xmax]` on the 0..1000 normalised scale. */
  datatype Box = Box(ymin: real, xmin: real, ymax: real, xmax: real)

  /** The box is ordered and lies inside the 0..1000 square. */
  predicate InUnitSquare(b: Box) {
    0.0 <= b.ymin <= b.ymax <= 1000.0 && 0.0 <= b.xmin <= b.xmax <= 1000.0
  }

  /** A dish as displayed, saved and persisted. */
  datatype Dish = Dish(
    id: string,
    name: string,
    originalName: string,
    description: string,
    image: Option<string>,
    tags: seq<string>,
    allergens: seq<string>,
    spiceLevel: SpiceLevel,
    category: string,
    boundingBox: Option<Box>,
    isOcrRefined: Option<bool>,
    isMenu: Option<bool>
  )

  /** A saved dish: the dish itself plus the instant it was saved, nothing else. */
  datatype SavedItem = SavedItem(dish: Dish, savedAt: string)

  /** JavaScript truthiness of an optional flag: absent counts as false. */
  predicate Flag(b: Option<bool>) {
    b == Some(true)
  }
}
