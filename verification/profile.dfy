/**
 The profile screen (components/Profile.tsx): the allergen list and how it is
 edited, the name edit, the copy of the held profile into the screen's own
 fields, and the chef card's translated note and allergen labels.

 Every handler returns the screen's new fields together with the update it
 sends to the app (`onUpdateProfile`), if any. The translation service's reply
 and the two constant tables of the card are inputs.
 */
module ProfileScreen {
  import opened Types
  import opened Text
  import App

  /** The screen's own fields. */
  datatype ProfileFields = ProfileFields(
    userName: string,
    editingName: bool,
    avatar: string,
    allergens: seq<string>,
    notes: string,
    customInput: string,
    selectValue: string,
    showCustomInput: bool,
    showNotesModal: bool
  )

  /** A handler's effect: the new fields and the update sent to the app. */
  datatype Step = Step(fields: ProfileFields, update: Option<UserProfile>)

  /** An update that sets only the allergen list. */
  function AllergenUpdate(list: seq<string>): (u: UserProfile)
    ensures u.allergens == Some(list) && u.(allergens := None) == NoProfileFields
  {
    NoProfileFields.(allergens := Some(list))
  }

  /** No allergen appears twice. */
  predicate NoDuplicates(list: seq<string>) {
    forall i, j :: 0 <= i < j < |list| ==> list[i] != list[j]
  }

  // ---------------------------------------------------------------------
  // The allergen list
  // ---------------------------------------------------------------------

  /** `filter(a => a !== allergen)`. */
  function Without(list: seq<string>, a: string): (r: seq<string>)
    ensures forall x :: x in r <==> x in list && x != a
    ensures a !in list ==> r == list
    ensures NoDuplicates(list) ==> NoDuplicates(r)
    decreases |list|
  {
    if |list| == 0 then []
    else
      var rest := Without(list[1..], a);
      assert forall x :: x in list[1..] ==> x in list;
      assert list == [list[0]] + list[1..];
      assert NoDuplicates(list) ==> list[0] !in list[1..] && NoDuplicates(list[1..]) by {
        if NoDuplicates(list) {
          forall k | 0 <= k < |list[1..]| ensures list[1..][k] != list[0] {
            assert list[1..][k] == list[k + 1];
          }
        }
      }
      if list[0] == a then rest else [list[0]] + rest
  }

  /** Removal distributes over concatenation, so the remaining allergens keep their order. */
  lemma {:induction false} WithoutConcat(a: seq<string>, b: seq<string>, x: string)
    ensures Without(a + b, x) == Without(a, x) + Without(b, x)
    decreases |a|
  {
    if |a| > 0 {
      assert (a + b)[1..] == a[1..] + b;
      WithoutConcat(a[1..], b, x);
    } else {
      assert a + b == b;
    }
  }

  /** Toggling an allergen flips its membership and leaves every other
      allergen's membership alone; an added allergen goes at the end. */
  function Toggle(list: seq<string>, a: string): (r: seq<string>)
    ensures a in r <==> a !in list
    ensures forall x :: x != a ==> (x in r <==> x in list)
    ensures a !in list ==> |r| == |list| + 1 && r[..|list|] == list
    ensures NoDuplicates(list) ==> NoDuplicates(r)
  {
    if a in list then Without(list, a)
    else
      var r := list + [a];
      assert r[..|list|] == list;
      r
  }

  /** Adding an allergen and then removing it gives back the original list. */
  lemma ToggleTwiceRestores(list: seq<string>, a: string)
    requires a !in list
    ensures Toggle(Toggle(list, a), a) == list
  {
    WithoutConcat(list, [a], a);
    assert Without([a], a) == Without([a][1..], a);
  }

  /** Clicking an allergen's chip or choosing it in the list: the new list is
      both shown and sent to the app. */
  function ToggleAllergen(f: ProfileFields, a: string): (s: Step)
    ensures s.fields.allergens == Toggle(f.allergens, a)
    ensures s.update == Some(AllergenUpdate(s.fields.allergens))
    ensures s.fields.(allergens := f.allergens) == f
  {
    var list := Toggle(f.allergens, a);
    Step(f.(allergens := list), Some(AllergenUpdate(list)))
  }

  /** The custom allergen field's "Add": the trimmed text is appended when it is
      neither empty nor already listed, and the input is cleared and closed;
      otherwise nothing happens at all. */
  function AddCustom(f: ProfileFields): (s: Step)
    ensures var t := Trim(f.customInput);
      if t != "" && t !in f.allergens then
        && s.fields.allergens == f.allergens + [t]
        && s.fields.customInput == "" && !s.fields.showCustomInput && s.fields.selectValue == ""
        && s.update == Some(AllergenUpdate(s.fields.allergens))
      else s == Step(f, None)
    ensures s.fields.(allergens := f.allergens, customInput := f.customInput,
                      showCustomInput := f.showCustomInput, selectValue := f.selectValue) == f
    ensures NoDuplicates(f.allergens) ==> NoDuplicates(s.fields.allergens)
    ensures forall x :: x in s.fields.allergens ==> x in f.allergens || x == Trim(f.customInput)
  {
    var t := Trim(f.customInput);
    if t != "" && t !in f.allergens then
      var list := f.allergens + [t];
      Step(f.(allergens := list, customInput := "", showCustomInput := false, selectValue := ""),
           Some(AllergenUpdate(list)))
    else Step(f, None)
  }

  /** Adding the same custom text twice adds it once. */
  lemma AddCustomTwice(f: ProfileFields)
    ensures var once := AddCustom(f).fields;
      AddCustom(once.(customInput := f.customInput)).fields.allergens == once.allergens
  {
    TrimSpec(f.customInput);
    var t := Trim(f.customInput);
    if t != "" && t !in f.allergens {
      assert t in f.allergens + [t];
    }
  }

  /** The value the select reserves for opening the custom field. */
  const CustomChoice: string := "custom"

  /** The allergen select: "custom" opens the custom field, any other value
      toggles that allergen and resets the select, and the empty placeholder
      only resets it. */
  function SelectChange(f: ProfileFields, value: string): (s: Step)
    ensures value == CustomChoice ==>
      s == Step(f.(selectValue := CustomChoice, showCustomInput := true), None)
    ensures value != CustomChoice && value != "" ==>
      && s.fields.allergens == Toggle(f.allergens, value)
      && s.fields.selectValue == "" && !s.fields.showCustomInput
      && s.update == Some(AllergenUpdate(s.fields.allergens))
    ensures value == "" ==> s == Step(f.(selectValue := "", showCustomInput := false), None)
    ensures s.fields.(allergens := f.allergens, selectValue := f.selectValue,
                      showCustomInput := f.showCustomInput) == f
  {
    if value == CustomChoice then
      Step(f.(selectValue := CustomChoice, showCustomInput := true), None)
    else if value != "" then
      var t := ToggleAllergen(f, value);
      Step(t.fields.(selectValue := "", showCustomInput := false), t.update)
    else
      Step(f.(selectValue := "", showCustomInput := false), None)
  }

  // ---------------------------------------------------------------------
  // Name and synchronisation
  // ---------------------------------------------------------------------

  /** Leaving the name field: editing always ends; the app is told the new name
      only when it differs from the stored one (a missing one always differs). */
  function NameSave(f: ProfileFields, stored: Option<string>): (s: Step)
    ensures !s.fields.editingName && s.fields.(editingName := f.editingName) == f
    ensures s.update.Some? <==> stored != Some(f.userName)
    ensures s.update.Some? ==> s.update.value.fullName == Some(f.userName)
  {
    var g := f.(editingName := false);
    if stored != Some(f.userName) then Step(g, Some(NoProfileFields.(fullName := Some(f.userName))))
    else Step(g, None)
  }

  /** Saving the name twice sends at most one update: once the app holds the
      name, saving it again sends nothing. */
  lemma NameSaveSettles(f: ProfileFields)
    ensures NameSave(f, Some(f.userName)).update.None?
  {
  }

  /** JavaScript truthiness of an optional string. */
  predicate Present(s: Option<string>) {
    s.Some? && s.value != ""
  }

  /** The held profile copied into the screen: a string field is taken only
      when it is non-empty; the allergen list whenever it is there, even empty. */
  function Sync(f: ProfileFields, p: Option<UserProfile>): (r: ProfileFields)
    ensures p.None? ==> r == f
    ensures p.Some? ==> r.userName == (if Present(p.value.fullName) then p.value.fullName.value else f.userName)
    ensures p.Some? ==> r.allergens == p.value.allergens.GetOr(f.allergens)
    ensures p.Some? ==> r.notes == (if Present(p.value.dietaryNotes) then p.value.dietaryNotes.value else f.notes)
    ensures p.Some? ==> r.avatar == (if Present(p.value.avatarUrl) then p.value.avatarUrl.value else f.avatar)
    ensures r.(userName := f.userName, allergens := f.allergens, notes := f.notes, avatar := f.avatar) == f
  {
    match p
    case None => f
    case Some(q) =>
      var f1 := if Present(q.fullName) then f.(userName := q.fullName.value) else f;
      var f2 := if q.allergens.Some? then f1.(allergens := q.allergens.value) else f1;
      var f3 := if Present(q.dietaryNotes) then f2.(notes := q.dietaryNotes.value) else f2;
      if Present(q.avatarUrl) then f3.(avatar := q.avatarUrl.value) else f3
  }

  /** The dietary-notes dialog's "Save": the dialog closes and the notes, as
      typed, are sent to the app. */
  function SaveNotes(f: ProfileFields): (s: Step)
    ensures !s.fields.showNotesModal && s.fields.(showNotesModal := f.showNotesModal) == f
    ensures s.update == Some(NoProfileFields.(dietaryNotes := Some(f.notes)))
  {
    Step(f.(showNotesModal := false), Some(NoProfileFields.(dietaryNotes := Some(f.notes))))
  }

  /** Saved notes survive the trip through the app: once the app has merged
      the update into its profile, copying that profile back into the screen
      leaves the notes as they were typed, whatever profile was held before. */
  lemma SavedNotesSyncBack(f: ProfileFields, held: Option<UserProfile>)
    ensures var st := SaveNotes(f);
      Sync(st.fields, Some(App.Merge(held, st.update.value))).notes == f.notes
  {
  }

  /** The same for an allergen edit: the list the screen shows is the list the
      profile hands back. */
  lemma ToggledAllergensSyncBack(f: ProfileFields, a: string, held: Option<UserProfile>)
    ensures var st := ToggleAllergen(f, a);
      Sync(st.fields, Some(App.Merge(held, st.update.value))).allergens == st.fields.allergens
  {
  }

  /** Copying the same profile again changes nothing. */
  lemma SyncIdempotent(f: ProfileFields, p: Option<UserProfile>)
    ensures Sync(Sync(f, p), p) == Sync(f, p)
  {
  }

  // ---------------------------------------------------------------------
  // The chef card
  // ---------------------------------------------------------------------

  /** What the translation call gave: its reply text (possibly missing) or an error. */
  datatype Translation = Replied(text: Option<string>) | Threw

  /** The note shown on the card: nothing for blank notes; the trimmed reply
      when there is one; the original notes when the reply is empty or the
      call failed. */
  function TranslatedNotes(notes: string, t: Translation): (r: string)
    ensures Trim(notes) == "" ==> r == ""
    ensures Trim(notes) != "" && (t.Threw? || !Present(t.text)) ==> r == notes
    ensures Trim(notes) != "" && t.Replied? && Present(t.text) ==> r == Trim(t.text.value)
  {
    if Trim(notes) == "" then ""
    else match t
      case Threw => notes
      case Replied(text) => if Present(text) then Trim(text.value) else notes
  }

  /** `translatedNotes || dietaryNotes`. */
  function CardNotes(translated: string, notes: string): (r: string)
    ensures translated != "" ==> r == translated
    ensures translated == "" ==> r == notes
  {
    if translated != "" then translated else notes
  }

  /** Notes with any non-whitespace never leave the card's note empty, whatever
      the translation did; and the shown note has no surrounding whitespace
      when it is the translation. */
  lemma CardNotesNeverBlank(notes: string, t: Translation)
    requires Trim(notes) != ""
    ensures CardNotes(TranslatedNotes(notes, t), notes) != ""
    ensures var shown := CardNotes(TranslatedNotes(notes, t), notes);
      shown == notes || Trim(shown) == shown
  {
    var r := TranslatedNotes(notes, t);
    if r != notes && r != "" {
      TrimIdempotent(t.text.value);
    }
  }

  /** The target-language card's label for an allergen: the table's entry when
      it is there and non-empty, else the allergen as typed. */
  function ChefLabel(table: map<string, string>, allergen: string): (r: string)
    ensures allergen in table && table[allergen] != "" ==> r == table[allergen]
    ensures allergen !in table || table[allergen] == "" ==> r == allergen
    ensures r != "" || allergen == ""
  {
    if allergen in table && table[allergen] != "" then table[allergen] else allergen
  }

  /** The English card's label: for a common allergen the English table's entry
      (`None`, rendering nothing, when the table lacks it); otherwise the
      allergen as typed. */
  function EnglishLabel(common: seq<string>, english: map<string, string>, allergen: string): (r: Option<string>)
    ensures allergen !in common ==> r == Some(allergen)
    ensures allergen in common ==> (r.Some? <==> allergen in english)
    ensures allergen in common && allergen in english ==> r == Some(english[allergen])
  {
    if allergen in common then
      if allergen in english then Some(english[allergen]) else None
    else Some(allergen)
  }

  /** With the English table as the card's table, keyed by exactly the common
      allergens with non-empty entries, the English card and the translated card
      label every allergen the same way. */
  lemma EnglishCardsAgree(common: seq<string>, english: map<string, string>, allergen: string)
    requires forall k :: k in english <==> k in common
    requires forall k :: k in english ==> english[k] != ""
    ensures EnglishLabel(common, english, allergen) == Some(ChefLabel(english, allergen))
  {
  }

  /** Every allergen on the card gets a label; with a complete table the labels
      are the table's and a custom allergen is shown as typed. */
  function ChefLabels(table: map<string, string>, allergens: seq<string>): (r: seq<string>)
    ensures |r| == |allergens|
    ensures forall k :: 0 <= k < |allergens| ==> r[k] == ChefLabel(table, allergens[k])
  {
    seq(|allergens|, k requires 0 <= k < |allergens| => ChefLabel(table, allergens[k]))
  }
}
