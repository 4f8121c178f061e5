/** The settings panel (components/Sidebar.tsx): how an edit becomes a new
    preferences record, the cuisine box's 'Any'/empty mapping, and the
    closed option sets of the three choice controls. */
module Sidebar {
  import opened ChefTypes

  /** `handleChange(key, value)`: `{ ...prefs, [key]: value }`. */
  function HandleChange(prefs: UserPreferences, key: PrefKey, value: string): (r: UserPreferences)
    ensures Field(r, key) == value
    ensures forall other :: other != key ==> Field(r, other) == Field(prefs, other)
  {
    match key
    case DietKey => prefs.(diet := value)
    case CuisineKey => prefs.(cuisine := value)
    case SkillLevelKey => prefs.(skillLevel := value)
    case AllergiesKey => prefs.(allergies := value)
    case LanguageKey => prefs.(language := value)
  }

  /** A record is determined by its five fields. */
  lemma {:induction false} FieldsDetermineRecord(p: UserPreferences, q: UserPreferences)
    requires forall key :: Field(p, key) == Field(q, key)
    ensures p == q
  {
    assert Field(p, DietKey) == Field(q, DietKey);
    assert Field(p, CuisineKey) == Field(q, CuisineKey);
    assert Field(p, SkillLevelKey) == Field(q, SkillLevelKey);
    assert Field(p, AllergiesKey) == Field(q, AllergiesKey);
    assert Field(p, LanguageKey) == Field(q, LanguageKey);
  }

  /** A second edit of the same key overrides the first. */
  lemma HandleChangeOverrides(p: UserPreferences, key: PrefKey, v1: string, v2: string)
    ensures HandleChange(HandleChange(p, key, v1), key, v2) == HandleChange(p, key, v2)
  {
    var l := HandleChange(HandleChange(p, key, v1), key, v2);
    var r := HandleChange(p, key, v2);
    forall k ensures Field(l, k) == Field(r, k) {
    }
    FieldsDetermineRecord(l, r);
  }

  /** Edits of two different keys commute. */
  lemma HandleChangeCommutes(p: UserPreferences, k1: PrefKey, v1: string, k2: PrefKey, v2: string)
    requires k1 != k2
    ensures HandleChange(HandleChange(p, k1, v1), k2, v2) == HandleChange(HandleChange(p, k2, v2), k1, v1)
  {
    var l := HandleChange(HandleChange(p, k1, v1), k2, v2);
    var r := HandleChange(HandleChange(p, k2, v2), k1, v1);
    forall k ensures Field(l, k) == Field(r, k) {
    }
    FieldsDetermineRecord(l, r);
  }

  // ---------------------------------------------------------------------
  // The cuisine text box

  /** What the box shows: empty for the 'Any' sentinel, the stored text
      otherwise. */
  function CuisineShown(stored: string): (shown: string)
    ensures shown != "Any"
    ensures shown == "" <==> stored == "" || stored == "Any"
    ensures stored != "Any" ==> shown == stored
  {
    if stored == "Any" then "" else stored
  }

  /** What an edit stores: 'Any' for an empty box, the input verbatim
      otherwise. */
  function CuisineStored(input: string): (stored: string)
    ensures stored != ""
    ensures stored == "Any" <==> input == "" || input == "Any"
    ensures input != "" ==> stored == input
  {
    if input == "" then "Any" else input
  }

  /** Feeding the shown text back through the edit handler restores every
      stored cuisine but the empty one. */
  lemma CuisineRoundTrip(stored: string)
    requires stored != ""
    ensures CuisineStored(CuisineShown(stored)) == stored
  {
  }

  /** And the other way: what was typed is shown again, unless it was the
      literal 'Any'. */
  lemma CuisineShownAfterEdit(input: string)
    requires input != "Any"
    ensures CuisineShown(CuisineStored(input)) == input
  {
  }

  // ---------------------------------------------------------------------
  // Option sets and the controls

  const DietOptions: seq<string> := ["Any", "Veg", "Non-Veg", "Vegan"]
  const SkillLevels: seq<string> := ["Beginner", "Intermediate", "Expert"]
  const LanguageOptions: seq<string> := ["English", "Hindi", "Hinglish"]

  /** Every choice field holds one of its options, and the cuisine is never
      empty (the edit handler stores 'Any' instead). */
  predicate ValidPrefs(p: UserPreferences)
  {
    && p.diet in DietOptions
    && p.skillLevel in SkillLevels
    && p.language in LanguageOptions
    && p.cuisine != ""
  }

  /** One user action on the panel: picking the option at an index of a
      select or of the skill buttons, or typing into a text box. */
  datatype Control =
    | SelectDiet(option: nat)
    | ClickSkill(option: nat)
    | TypeCuisine(input: string)
    | TypeAllergies(input: string)
    | SelectLanguage(option: nat)

  /** The option indices exist. */
  predicate WellFormed(c: Control)
  {
    match c
    case SelectDiet(i) => i < |DietOptions|
    case ClickSkill(i) => i < |SkillLevels|
    case SelectLanguage(i) => i < |LanguageOptions|
    case _ => true
  }

  /** The preferences after a control fires its `handleChange`. */
  function Apply(p: UserPreferences, c: Control): (r: UserPreferences)
    requires WellFormed(c)
    ensures c.SelectDiet? ==> r == p.(diet := DietOptions[c.option])
    ensures c.ClickSkill? ==> r == p.(skillLevel := SkillLevels[c.option])
    ensures c.TypeCuisine? ==> r == p.(cuisine := if c.input == "" then "Any" else c.input)
    ensures c.TypeAllergies? ==> r == p.(allergies := c.input)
    ensures c.SelectLanguage? ==> r == p.(language := LanguageOptions[c.option])
  {
    match c
    case SelectDiet(i) => HandleChange(p, DietKey, DietOptions[i])
    case ClickSkill(i) => HandleChange(p, SkillLevelKey, SkillLevels[i])
    case TypeCuisine(input) => HandleChange(p, CuisineKey, CuisineStored(input))
    case TypeAllergies(input) => HandleChange(p, AllergiesKey, input)
    case SelectLanguage(i) => HandleChange(p, LanguageKey, LanguageOptions[i])
  }

  /** The defaults are valid. */
  lemma DefaultsValid()
    ensures ValidPrefs(DefaultPreferences)
  {
    assert DefaultPreferences.diet == DietOptions[0];
    assert DefaultPreferences.skillLevel == SkillLevels[0];
    assert DefaultPreferences.language == LanguageOptions[0];
  }

  /** The controls only write values from the closed sets: every control
      keeps the preferences valid. */
  lemma ControlsKeepValid(p: UserPreferences, c: Control)
    requires ValidPrefs(p) && WellFormed(c)
    ensures ValidPrefs(Apply(p, c))
  {
    var q := Apply(p, c);
    match c
    case SelectDiet(i) =>
      assert q.diet == DietOptions[i];
    case ClickSkill(i) =>
      assert q.skillLevel == SkillLevels[i];
    case SelectLanguage(i) =>
      assert q.language == LanguageOptions[i];
    case TypeCuisine(input) =>
    case TypeAllergies(input) =>
  }

  /** A skill button is highlighted when the stored level is its own. */
  predicate Highlighted(p: UserPreferences, i: nat)
    requires i < |SkillLevels|
  {
    p.skillLevel == SkillLevels[i]
  }

  /** With a valid level, exactly one skill button is highlighted. */
  lemma ExactlyOneSkillHighlighted(p: UserPreferences)
    requires ValidPrefs(p)
    ensures exists i :: 0 <= i < |SkillLevels| && Highlighted(p, i)
    ensures forall i, j ::
              0 <= i < |SkillLevels| && 0 <= j < |SkillLevels| && Highlighted(p, i) && Highlighted(p, j)
              ==> i == j
  {
    var i :| 0 <= i < |SkillLevels| && SkillLevels[i] == p.skillLevel;
    assert Highlighted(p, i);
  }
}
