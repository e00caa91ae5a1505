/** calculateResult of src/data/questions.ts: the constants it feeds the matcher, its entry
    point, and what those constants imply about the result. */
module Questions {
  import opened Types
  import opened Matcher

  /** The eight counter objects of calculateResult, each key list in declaration order. The
      answer-side value types exclude flavour "sour", texture "crunchy" and culture
      "modern-fusion", and so do these tables. */
  function QuestionKeys(): TallyKeys
  {
    TallyKeys(
      [High, Medium, Low],
      [Extrovert, Ambivert, Introvert],
      [Sweet, Savory, Spicy, Balanced],
      [Adventurous, AdventureLevel.Moderate, Traditional],
      [Morning, Afternoon, Evening, Night],
      [Casual, Setting.Moderate, Elegant],
      [Soft, Chewy, Varied],
      [RootDeep, StreetSmart])
  }

  /** Every counter object is non-empty and lists each key once. */
  lemma QuestionKeysWellFormed()
    ensures NonEmptyKeys(QuestionKeys())
    ensures var k := QuestionKeys();
      && Distinct(k.energyLevel) && Distinct(k.socialPreference) && Distinct(k.flavorProfile)
      && Distinct(k.adventureLevel) && Distinct(k.timeOfDay) && Distinct(k.setting)
      && Distinct(k.texturePreference) && Distinct(k.culturalAuthenticity)
  {
  }

  /** The weight table of calculateMatchScore, in tenths. */
  function QuestionWeight(d: Dim): nat
  {
    match d
    case EnergyDim => 15
    case SocialDim => 12
    case FlavorDim => 15
    case AdventureDim => 13
    case TimeDim => 10
    case SettingDim => 10
    case TextureDim => 12
    case CultureDim => 13
  }

  function AttrsOf(dishes: seq<BaseDish>): (r: seq<QuizAttributes>)
    ensures |r| == |dishes|
    ensures forall i :: 0 <= i < |dishes| ==> r[i] == dishes[i].attrs
  {
    seq(|dishes|, i requires 0 <= i < |dishes| => dishes[i].attrs)
  }

  /** The profile calculateResult computes from the answers. */
  function Profile(answers: seq<Option<Answer>>): QuizAttributes
  {
    ProfileOf(QuestionKeys(), answers)
  }

  /** calculateResult: the id of the first catalog dish of strictly highest match score, or of
      dishes[0] when no dish scores above 0. `answers` is Object.values of the answer record. */
  method CalculateResult(answers: seq<Option<Answer>>, dishes: seq<BaseDish>) returns (id: DishId)
    requires |dishes| > 0
    requires forall a :: a in answers ==> InTables(QuestionKeys(), a)
    ensures exists k :: IsBestMatch(AttrsOf(dishes), Profile(answers), QuestionWeight, k) && id == dishes[k].id
  {
    var k := MatchIndex(QuestionKeys(), QuestionWeight, answers, AttrsOf(dishes));
    id := dishes[k].id;
  }

  /** The weights add up to 10.0, so a full match scores 100 tenths; every score lies in
      0..100 and equals 100 exactly when the dish agrees with the profile everywhere. */
  lemma MatchScoreRange(dish: QuizAttributes, profile: QuizAttributes)
    ensures MatchScore(dish, profile, QuestionWeight) <= 100
    ensures MatchScore(dish, profile, QuestionWeight) == 100 <==> dish == profile
  {
    AllDimsComplete();
    AgreedWeightBounds(AllDims, dish, profile, QuestionWeight);
    AgreesEverywhereIsEqual(dish, profile);
    TotalWeightAll(QuestionWeight);
  }

  /** Per dimension, the counts add up to the number of answers tagging that dimension. */
  lemma TallySums(answers: seq<Option<Answer>>)
    requires forall a :: a in answers ==> InTables(QuestionKeys(), a)
    ensures var s := ScoresOf(QuestionKeys(), answers);
      && SumCounts(s.energyLevel) == Tagged(answers, EnergyTag)
      && SumCounts(s.socialPreference) == Tagged(answers, SocialTag)
      && SumCounts(s.flavorProfile) == Tagged(answers, FlavorTag)
      && SumCounts(s.adventureLevel) == Tagged(answers, AdventureTag)
      && SumCounts(s.timeOfDay) == Tagged(answers, TimeTag)
      && SumCounts(s.setting) == Tagged(answers, SettingTag)
      && SumCounts(s.texturePreference) == Tagged(answers, TextureTag)
      && SumCounts(s.culturalAuthenticity) == Tagged(answers, CultureTag)
  {
    var keys := QuestionKeys();
    QuestionKeysWellFormed();
    TableSum(keys.energyLevel, answers, EnergyTag);
    TableSum(keys.socialPreference, answers, SocialTag);
    TableSum(keys.flavorProfile, answers, FlavorTag);
    TableSum(keys.adventureLevel, answers, AdventureTag);
    TableSum(keys.timeOfDay, answers, TimeTag);
    TableSum(keys.setting, answers, SettingTag);
    TableSum(keys.texturePreference, answers, TextureTag);
    TableSum(keys.culturalAuthenticity, answers, CultureTag);
  }

  /** With no answers every count is 0 and the first declared key of each table wins. */
  lemma EmptyAnswersProfile()
    ensures Profile([]) == QuizAttributes(High, Extrovert, Sweet, Adventurous, Morning, Casual, Soft, RootDeep)
  {
    var keys := QuestionKeys();
    var p := Profile([]);
    UntaggedPicksFirstKey(keys.energyLevel, [], EnergyTag, p.energyLevel);
    UntaggedPicksFirstKey(keys.socialPreference, [], SocialTag, p.socialPreference);
    UntaggedPicksFirstKey(keys.flavorProfile, [], FlavorTag, p.flavorProfile);
    UntaggedPicksFirstKey(keys.adventureLevel, [], AdventureTag, p.adventureLevel);
    UntaggedPicksFirstKey(keys.timeOfDay, [], TimeTag, p.timeOfDay);
    UntaggedPicksFirstKey(keys.setting, [], SettingTag, p.setting);
    UntaggedPicksFirstKey(keys.texturePreference, [], TextureTag, p.texturePreference);
    UntaggedPicksFirstKey(keys.culturalAuthenticity, [], CultureTag, p.culturalAuthenticity);
  }

  /** Values missing from a counter object never appear in the profile built on it. */
  lemma ProfileAvoidsMissing(keys: TallyKeys, answers: seq<Option<Answer>>)
    requires NonEmptyKeys(keys)
    requires Crunchy !in keys.texturePreference && Sour !in keys.flavorProfile
    requires ModernFusion !in keys.culturalAuthenticity
    ensures ProfileOf(keys, answers).texturePreference != Crunchy
    ensures ProfileOf(keys, answers).flavorProfile != Sour
    ensures ProfileOf(keys, answers).culturalAuthenticity != ModernFusion
  {
    ProfileInKeys(keys, answers);
  }

  /** Values missing from the counter objects never appear in a profile. */
  lemma ProfileAvoidsUntabled(answers: seq<Option<Answer>>)
    ensures Profile(answers).texturePreference != Crunchy
    ensures Profile(answers).flavorProfile != Sour
    ensures Profile(answers).culturalAuthenticity != ModernFusion
  {
    var keys := QuestionKeys();
    assert NonEmptyKeys(keys);
    ProfileAvoidsMissing(keys, answers);
  }

  /** A dimension on which dish and profile differ caps the score at 100 minus its weight. */
  lemma MismatchCaps(dish: QuizAttributes, profile: QuizAttributes, d: Dim)
    requires !Agrees(d, dish, profile)
    ensures MatchScore(dish, profile, QuestionWeight) <= 100 - QuestionWeight(d)
  {
    TotalWeightAll(QuestionWeight);
    AllDimsComplete();
    DisagreementCosts(AllDims, dish, profile, QuestionWeight, d);
  }

  /** A profile that avoids the three untabled values caps the score of any dish holding one:
      the dimension's weight is lost. */
  lemma UntabledCaps(dish: QuizAttributes, p: QuizAttributes)
    requires p.texturePreference != Crunchy && p.flavorProfile != Sour && p.culturalAuthenticity != ModernFusion
    ensures dish.texturePreference == Crunchy ==> MatchScore(dish, p, QuestionWeight) <= 88
    ensures dish.flavorProfile == Sour ==> MatchScore(dish, p, QuestionWeight) <= 85
    ensures dish.culturalAuthenticity == ModernFusion ==> MatchScore(dish, p, QuestionWeight) <= 87
  {
    if dish.texturePreference == Crunchy {
      MismatchCaps(dish, p, TextureDim);
    }
    if dish.flavorProfile == Sour {
      MismatchCaps(dish, p, FlavorDim);
    }
    if dish.culturalAuthenticity == ModernFusion {
      MismatchCaps(dish, p, CultureDim);
    }
  }

  /** So a dish with a value missing from the counter objects never earns that dimension's
      weight and never reaches a full match. */
  lemma UntabledValuesNeverEarn(dish: QuizAttributes, answers: seq<Option<Answer>>)
    ensures dish.texturePreference == Crunchy ==> MatchScore(dish, Profile(answers), QuestionWeight) <= 88
    ensures dish.flavorProfile == Sour ==> MatchScore(dish, Profile(answers), QuestionWeight) <= 85
    ensures dish.culturalAuthenticity == ModernFusion ==> MatchScore(dish, Profile(answers), QuestionWeight) <= 87
  {
    ProfileAvoidsUntabled(answers);
    UntabledCaps(dish, Profile(answers));
  }
}
