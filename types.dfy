/** The value types shared by the quiz: the eight trait dimensions with their closed value
    sets, a dish's quiz attributes, a quiz answer and question, and a pairing record. */
module Types {

  datatype Option<T> = None | Some(value: T)

  /** Dish identifiers are opaque strings; the catalog supplies them. */
  type DishId = string

  datatype EnergyLevel = High | Medium | Low
  datatype SocialPreference = Extrovert | Ambivert | Introvert
  datatype FlavorProfile = Sweet | Savory | Spicy | Sour | Balanced
  datatype AdventureLevel = Adventurous | Moderate | Traditional
  datatype TimeOfDay = Morning | Afternoon | Evening | Night
  datatype Setting = Casual | Moderate | Elegant
  datatype TexturePreference = Soft | Crunchy | Chewy | Varied
  datatype CulturalAuthenticity = RootDeep | ModernFusion | StreetSmart

  /** The eight dimensions, in the order the user profile object declares them. */
  datatype Dim =
    | EnergyDim | SocialDim | FlavorDim | AdventureDim
    | TimeDim | SettingDim | TextureDim | CultureDim

  const AllDims: seq<Dim> :=
    [EnergyDim, SocialDim, FlavorDim, AdventureDim, TimeDim, SettingDim, TextureDim, CultureDim]

  lemma AllDimsComplete()
    ensures forall d :: d in AllDims
  {
    forall d ensures d in AllDims {
      match d
      case EnergyDim => assert AllDims[0] == d;
      case SocialDim => assert AllDims[1] == d;
      case FlavorDim => assert AllDims[2] == d;
      case AdventureDim => assert AllDims[3] == d;
      case TimeDim => assert AllDims[4] == d;
      case SettingDim => assert AllDims[5] == d;
      case TextureDim => assert AllDims[6] == d;
      case CultureDim => assert AllDims[7] == d;
    }
  }

  /** One value per dimension: a dish's attributes, and also a reduced user profile. */
  datatype QuizAttributes = QuizAttributes(
    energyLevel: EnergyLevel,
    socialPreference: SocialPreference,
    flavorProfile: FlavorProfile,
    adventureLevel: AdventureLevel,
    timeOfDay: TimeOfDay,
    setting: Setting,
    texturePreference: TexturePreference,
    culturalAuthenticity: CulturalAuthenticity)

  /** The partial trait record of a quiz answer: a dimension it does not tag is None. */
  datatype AnswerTraits = AnswerTraits(
    energyLevel: Option<EnergyLevel>,
    socialPreference: Option<SocialPreference>,
    flavorProfile: Option<FlavorProfile>,
    adventureLevel: Option<AdventureLevel>,
    timeOfDay: Option<TimeOfDay>,
    setting: Option<Setting>,
    texturePreference: Option<TexturePreference>,
    culturalAuthenticity: Option<CulturalAuthenticity>)

  /** A quiz answer; `traits` is None for an answer object that carries no trait record. */
  datatype Answer = Answer(id: string, traits: Option<AnswerTraits>)

  datatype Question = Question(id: int, answers: seq<Answer>)

  /** A catalog entry as the scoring and pairing code sees it. */
  datatype BaseDish = BaseDish(id: DishId, attrs: QuizAttributes)

  datatype PairedWith = PairedWith(dishId: DishId, reason: string, compatibilityScore: nat)

  /** A catalog entry after the pairing pass; `pairedWith` None is the undefined field. */
  datatype Dish = Dish(base: BaseDish, pairedWith: Option<seq<PairedWith>>)

  // ---------------------------------------------------------------------------------------
  // Array.prototype.findIndex and Array.prototype.find on a key.

  /** `s.findIndex((x) => key(x) === k)`: the first index whose key is k, or -1. */
  function FindIndex<T, K(==)>(s: seq<T>, key: T -> K, k: K): (i: int)
    ensures -1 <= i < |s|
    ensures i == -1 <==> forall j :: 0 <= j < |s| ==> key(s[j]) != k
    ensures i >= 0 ==> key(s[i]) == k && forall j :: 0 <= j < i ==> key(s[j]) != k
  {
    if s == [] then -1
    else if key(s[0]) == k then 0
    else
      var i := FindIndex(s[1..], key, k);
      assert forall j :: 1 <= j < |s| ==> s[j] == s[1..][j - 1];
      if i == -1 then -1 else i + 1
  }

  /** `s.find((x) => key(x) === k)`: the first element whose key is k, or undefined. */
  function Find<T, K(==)>(s: seq<T>, key: T -> K, k: K): (r: Option<T>)
    ensures r.None? <==> forall j :: 0 <= j < |s| ==> key(s[j]) != k
    ensures r.Some? ==> exists i :: 0 <= i < |s| && s[i] == r.value && key(r.value) == k
                                     && forall j :: 0 <= j < i ==> key(s[j]) != k
  {
    var i := FindIndex(s, key, k);
    if i < 0 then None else Some(s[i])
  }

  /** Whether the dish agrees with the profile on dimension d. */
  predicate Agrees(d: Dim, dish: QuizAttributes, profile: QuizAttributes)
  {
    match d
    case EnergyDim => dish.energyLevel == profile.energyLevel
    case SocialDim => dish.socialPreference == profile.socialPreference
    case FlavorDim => dish.flavorProfile == profile.flavorProfile
    case AdventureDim => dish.adventureLevel == profile.adventureLevel
    case TimeDim => dish.timeOfDay == profile.timeOfDay
    case SettingDim => dish.setting == profile.setting
    case TextureDim => dish.texturePreference == profile.texturePreference
    case CultureDim => dish.culturalAuthenticity == profile.culturalAuthenticity
  }

  /** Agreeing on all eight dimensions is the same as being equal. */
  lemma AgreesEverywhereIsEqual(dish: QuizAttributes, profile: QuizAttributes)
    ensures (forall d :: Agrees(d, dish, profile)) <==> dish == profile
  {
    if forall d :: Agrees(d, dish, profile) {
      assert Agrees(EnergyDim, dish, profile) && Agrees(SocialDim, dish, profile);
      assert Agrees(FlavorDim, dish, profile) && Agrees(AdventureDim, dish, profile);
      assert Agrees(TimeDim, dish, profile) && Agrees(SettingDim, dish, profile);
      assert Agrees(TextureDim, dish, profile) && Agrees(CultureDim, dish, profile);
    }
  }
}
