/** The application's records: chat messages, user preferences and the
    four-valued loading status (types.ts). */
module ChefTypes {

  datatype Option<+T> = None | Some(value: T)

  /** Who wrote a message. */
  datatype Role = User | Model

  /** One turn of the transcript. An absent `isLoading` is falsy in every use
      the application makes of it, so it is modelled as `false`. */
  datatype Message = Message(
    id: string,
    role: Role,
    text: string,
    image: Option<string>,
    isLoading: bool)

  /** The assistant's settings. Every field is a string, as at run time:
      the closed option sets are a property of the settings panel (module
      Sidebar), not of the record. */
  datatype UserPreferences = UserPreferences(
    diet: string,
    cuisine: string,
    skillLevel: string,
    allergies: string,
    language: string)

  const DefaultPreferences: UserPreferences :=
    UserPreferences("Any", "Any", "Beginner", "", "English")

  /** Which backend call, if any, the controller is waiting for. */
  datatype LoadingState = Idle | Sending | GeneratingImage | GeneratingAudio

  /** The keys of `UserPreferences`. */
  datatype PrefKey = DietKey | CuisineKey | SkillLevelKey | AllergiesKey | LanguageKey

  /** The value stored under `key`. */
  function Field(p: UserPreferences, key: PrefKey): string
  {
    match key
    case DietKey => p.diet
    case CuisineKey => p.cuisine
    case SkillLevelKey => p.skillLevel
    case AllergiesKey => p.allergies
    case LanguageKey => p.language
  }
}
