/** The copy of calculateResult embedded in src/app/result/page.tsx. It carries its own copies
    of the counter objects and the weight table and returns the dish rather than its id. */
module ResultPage {
  import opened Types
  import opened Matcher
  import Questions

  /** The page's counter objects, each key list in declaration order. */
  function PageKeys(): TallyKeys
  {
    TallyKeys(
      [High, Medium, Low],
      [Extrovert, Ambivert, Introvert],
      [Sweet, Savory, Spicy, Balanced],
      [Adventurous, AdventureLevel.Moderate, Traditional],
      [Morning, Afternoon, Evening, Night],
      [Casual, Setting.Moderate, Elegant],
      [Soft, Chewy, Varied],
      [RootDeep, StreetSmart])
  }

  /** The page's weight table, in tenths. */
  function PageWeight(d: Dim): nat
  {
    match d
    case EnergyDim => 15
    case SocialDim => 12
    case FlavorDim => 15
    case AdventureDim => 13
    case TimeDim => 10
    case SettingDim => 10
    case TextureDim => 12
    case CultureDim => 13
  }

  function PageAttrs(dishes: seq<Dish>): (r: seq<QuizAttributes>)
    ensures |r| == |dishes|
    ensures forall i :: 0 <= i < |dishes| ==> r[i] == dishes[i].base.attrs
  {
    seq(|dishes|, i requires 0 <= i < |dishes| => dishes[i].base.attrs)
  }

  /** The page's calculateResult: the first dish of strictly highest match score, or dishes[0]
      when no dish scores above 0. */
  method CalculateResult(answers: seq<Option<Answer>>, dishes: seq<Dish>) returns (result: Dish)
    requires |dishes| > 0
    requires forall a :: a in answers ==> InTables(PageKeys(), a)
    ensures exists k :: IsBestMatch(PageAttrs(dishes), ProfileOf(PageKeys(), answers), PageWeight, k)
                     && result == dishes[k]
  {
    var k := MatchIndex(PageKeys(), PageWeight, answers, PageAttrs(dishes));
    result := dishes[k];
  }

  /** A full match on the page also scores 100 tenths. */
  lemma PageFullScore(dish: QuizAttributes, profile: QuizAttributes)
    ensures MatchScore(dish, profile, PageWeight) <= 100
    ensures MatchScore(dish, profile, PageWeight) == 100 <==> dish == profile
  {
    AllDimsComplete();
    AgreedWeightBounds(AllDims, dish, profile, PageWeight);
    AgreesEverywhereIsEqual(dish, profile);
    TotalWeightAll(PageWeight);
  }

  /** The base dishes of the page's catalog. */
  function BasesOf(dishes: seq<Dish>): (r: seq<BaseDish>)
    ensures |r| == |dishes|
    ensures forall i :: 0 <= i < |dishes| ==> r[i] == dishes[i].base
  {
    seq(|dishes|, i requires 0 <= i < |dishes| => dishes[i].base)
  }

  /** Both copies see the same attributes, in the same order. */
  lemma PageCatalog(dishes: seq<Dish>)
    ensures Questions.AttrsOf(BasesOf(dishes)) == PageAttrs(dishes)
  {
    assert forall i :: 0 <= i < |dishes| ==> Questions.AttrsOf(BasesOf(dishes))[i] == PageAttrs(dishes)[i];
  }

  /** The page's tables are those of questions.ts, so it builds the same profile. */
  lemma PageProfileIsQuestionsProfile(answers: seq<Option<Answer>>)
    ensures forall d :: PageWeight(d) == Questions.QuestionWeight(d)
    ensures ProfileOf(PageKeys(), answers) == Questions.Profile(answers)
  {
    assert PageKeys() == Questions.QuestionKeys();
  }

  /** Over the same catalog the page and questions.ts pick the same dish: their counter
      objects and weights are identical, and so is the strict-greater selection. */
  lemma PageAgreesWithQuestions(answers: seq<Option<Answer>>, dishes: seq<Dish>, kPage: int, kQuestions: int)
    requires IsBestMatch(PageAttrs(dishes), ProfileOf(PageKeys(), answers), PageWeight, kPage)
    requires IsBestMatch(Questions.AttrsOf(BasesOf(dishes)), Questions.Profile(answers), Questions.QuestionWeight, kQuestions)
    ensures kPage == kQuestions
  {
    PageCatalog(dishes);
    PageProfileIsQuestionsProfile(answers);
    BestMatchSame(PageAttrs(dishes), ProfileOf(PageKeys(), answers), Questions.Profile(answers),
                  PageWeight, Questions.QuestionWeight, kPage, kQuestions);
  }
}
