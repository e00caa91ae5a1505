/** The pairing engine of src/data/pairings.ts: seven compatibility tables, the weighted and
    rounded compatibility score, the priority-ordered reason chooser, the best-partner picker,
    the all-pairs builder, and the classic-pair and classic-reason tables. Weights are in
    tenths (1.5 is 15), so they add up to 80. */
module Pairings {
  import opened Types
  import opened StableSort

  // ---------------------------------------------------------------------------------------
  // The compatibility tables. A row or column the table does not list is None.

  function EnergyTable(a: EnergyLevel, b: EnergyLevel): Option<nat>
  {
    Some(match (a, b)
      case (High, High) => 90   case (High, Medium) => 70   case (High, Low) => 50
      case (Medium, High) => 70 case (Medium, Medium) => 85 case (Medium, Low) => 75
      case (Low, High) => 50    case (Low, Medium) => 75    case (Low, Low) => 90)
  }

  /** The flavour table has no row or column for "sour". */
  function FlavorTable(a: FlavorProfile, b: FlavorProfile): Option<nat>
  {
    match (a, b)
    case (Sour, _) => None
    case (_, Sour) => None
    case (Sweet, Sweet) => Some(80)    case (Sweet, Savory) => Some(60)
    case (Sweet, Spicy) => Some(90)    case (Sweet, Balanced) => Some(70)
    case (Savory, Sweet) => Some(60)   case (Savory, Savory) => Some(85)
    case (Savory, Spicy) => Some(70)   case (Savory, Balanced) => Some(80)
    case (Spicy, Sweet) => Some(90)    case (Spicy, Savory) => Some(70)
    case (Spicy, Spicy) => Some(75)    case (Spicy, Balanced) => Some(65)
    case (Balanced, Sweet) => Some(70) case (Balanced, Savory) => Some(80)
    case (Balanced, Spicy) => Some(65) case (Balanced, Balanced) => Some(75)
  }

  function TimeTable(a: TimeOfDay, b: TimeOfDay): Option<nat>
  {
    Some(match (a, b)
      case (Morning, Morning) => 95   case (Morning, Afternoon) => 75
      case (Morning, Evening) => 50   case (Morning, Night) => 40
      case (Afternoon, Morning) => 75 case (Afternoon, Afternoon) => 85
      case (Afternoon, Evening) => 70 case (Afternoon, Night) => 60
      case (Evening, Morning) => 50   case (Evening, Afternoon) => 70
      case (Evening, Evening) => 90   case (Evening, Night) => 75
      case (Night, Morning) => 40     case (Night, Afternoon) => 60
      case (Night, Evening) => 75     case (Night, Night) => 90)
  }

  function SocialTable(a: SocialPreference, b: SocialPreference): Option<nat>
  {
    Some(match (a, b)
      case (Extrovert, Extrovert) => 90 case (Extrovert, Ambivert) => 75 case (Extrovert, Introvert) => 55
      case (Ambivert, Extrovert) => 75  case (Ambivert, Ambivert) => 85  case (Ambivert, Introvert) => 70
      case (Introvert, Extrovert) => 55 case (Introvert, Ambivert) => 70 case (Introvert, Introvert) => 90)
  }

  function CultureTable(a: CulturalAuthenticity, b: CulturalAuthenticity): Option<nat>
  {
    Some(match (a, b)
      case (RootDeep, RootDeep) => 90     case (RootDeep, ModernFusion) => 60     case (RootDeep, StreetSmart) => 75
      case (ModernFusion, RootDeep) => 60 case (ModernFusion, ModernFusion) => 85 case (ModernFusion, StreetSmart) => 70
      case (StreetSmart, RootDeep) => 75  case (StreetSmart, ModernFusion) => 70  case (StreetSmart, StreetSmart) => 90)
  }

  function TextureTable(a: TexturePreference, b: TexturePreference): Option<nat>
  {
    Some(match (a, b)
      case (Soft, Soft) => 70    case (Soft, Crunchy) => 90    case (Soft, Chewy) => 75    case (Soft, Varied) => 80
      case (Crunchy, Soft) => 90 case (Crunchy, Crunchy) => 70 case (Crunchy, Chewy) => 65 case (Crunchy, Varied) => 75
      case (Chewy, Soft) => 75   case (Chewy, Crunchy) => 65   case (Chewy, Chewy) => 80   case (Chewy, Varied) => 85
      case (Varied, Soft) => 80  case (Varied, Crunchy) => 75  case (Varied, Chewy) => 85  case (Varied, Varied) => 80)
  }

  function AdventureTable(a: AdventureLevel, b: AdventureLevel): Option<nat>
  {
    Some(match (a, b)
      case (Adventurous, Adventurous) => 85 case (Adventurous, Moderate) => 70 case (Adventurous, Traditional) => 55
      case (Moderate, Adventurous) => 70    case (Moderate, Moderate) => 85    case (Moderate, Traditional) => 75
      case (Traditional, Adventurous) => 55 case (Traditional, Moderate) => 75 case (Traditional, Traditional) => 90)
  }

  /** `table[a]?.[b] || 50`: a missing entry, and a falsy 0, become 50. */
  function OrFifty(entry: Option<nat>): nat
  {
    if entry.Some? && entry.value != 0 then entry.value else 50
  }

  function EnergyScore(x: QuizAttributes, y: QuizAttributes): nat
  {
    OrFifty(EnergyTable(x.energyLevel, y.energyLevel))
  }

  function FlavorScore(x: QuizAttributes, y: QuizAttributes): nat
  {
    OrFifty(FlavorTable(x.flavorProfile, y.flavorProfile))
  }

  function TimeScore(x: QuizAttributes, y: QuizAttributes): nat
  {
    OrFifty(TimeTable(x.timeOfDay, y.timeOfDay))
  }

  function SocialScore(x: QuizAttributes, y: QuizAttributes): nat
  {
    OrFifty(SocialTable(x.socialPreference, y.socialPreference))
  }

  function CultureScore(x: QuizAttributes, y: QuizAttributes): nat
  {
    OrFifty(CultureTable(x.culturalAuthenticity, y.culturalAuthenticity))
  }

  function TextureScore(x: QuizAttributes, y: QuizAttributes): nat
  {
    OrFifty(TextureTable(x.texturePreference, y.texturePreference))
  }

  function AdventureScore(x: QuizAttributes, y: QuizAttributes): nat
  {
    OrFifty(AdventureTable(x.adventureLevel, y.adventureLevel))
  }

  /** Only the flavour table misses an entry, exactly when "sour" is involved, and a missing
      entry counts 50. */
  lemma MissingLookups(x: QuizAttributes, y: QuizAttributes)
    ensures FlavorTable(x.flavorProfile, y.flavorProfile).None? <==> x.flavorProfile == Sour || y.flavorProfile == Sour
    ensures FlavorTable(x.flavorProfile, y.flavorProfile).None? ==> FlavorScore(x, y) == 50
    ensures EnergyTable(x.energyLevel, y.energyLevel).Some? && TimeTable(x.timeOfDay, y.timeOfDay).Some?
    ensures SocialTable(x.socialPreference, y.socialPreference).Some?
    ensures CultureTable(x.culturalAuthenticity, y.culturalAuthenticity).Some?
    ensures TextureTable(x.texturePreference, y.texturePreference).Some?
    ensures AdventureTable(x.adventureLevel, y.adventureLevel).Some?
  {
  }

  /** Every lookup, the fallback included, lies in 40..95. */
  lemma ScoresInRange(x: QuizAttributes, y: QuizAttributes)
    ensures 40 <= EnergyScore(x, y) <= 95 && 40 <= FlavorScore(x, y) <= 95
    ensures 40 <= TimeScore(x, y) <= 95 && 40 <= SocialScore(x, y) <= 95
    ensures 40 <= CultureScore(x, y) <= 95 && 40 <= TextureScore(x, y) <= 95
    ensures 40 <= AdventureScore(x, y) <= 95
  {
  }

  /** Every table is symmetric. */
  lemma ScoresSymmetric(x: QuizAttributes, y: QuizAttributes)
    ensures EnergyScore(x, y) == EnergyScore(y, x) && FlavorScore(x, y) == FlavorScore(y, x)
    ensures TimeScore(x, y) == TimeScore(y, x) && SocialScore(x, y) == SocialScore(y, x)
    ensures CultureScore(x, y) == CultureScore(y, x) && TextureScore(x, y) == TextureScore(y, x)
    ensures AdventureScore(x, y) == AdventureScore(y, x)
  {
  }

  // ---------------------------------------------------------------------------------------
  // calculateCompatibility.

  /** The weighted sum of the seven lookups, in tenths. */
  function WeightedSum(x: QuizAttributes, y: QuizAttributes): nat
  {
    EnergyScore(x, y) * 15 + FlavorScore(x, y) * 15 + TimeScore(x, y) * 12
      + SocialScore(x, y) * 10 + CultureScore(x, y) * 10 + TextureScore(x, y) * 10
      + AdventureScore(x, y) * 8
  }

  /** Math.round(s / w) for s >= 0 and w > 0: add one half, then take the floor. */
  function RoundHalfUp(s: nat, w: nat): nat
    requires w > 0
  {
    (2 * s + w) / (2 * w)
  }

  /** Rounding by 80 yields the integer r with r <= s/80 + 1/2 < r + 1. */
  lemma RoundHalfUpBy80(s: nat)
    ensures 160 * RoundHalfUp(s, 80) <= 2 * s + 80 < 160 * (RoundHalfUp(s, 80) + 1)
  {
  }

  /** The compatibility of two attribute sets: the weighted mean of the lookups, rounded
      half-up. It always lies in 40..95. */
  function Compatibility(x: QuizAttributes, y: QuizAttributes): (c: nat)
    ensures 40 <= c <= 95
  {
    ScoresInRange(x, y);
    var s := WeightedSum(x, y);
    assert 3200 <= s <= 7600;
    RoundHalfUpBy80(s);
    RoundHalfUp(s, 80)
  }

  lemma CompatibilitySymmetric(x: QuizAttributes, y: QuizAttributes)
    ensures Compatibility(x, y) == Compatibility(y, x)
  {
    ScoresSymmetric(x, y);
  }

  /** calculateCompatibility: accumulate score and weights lookup by lookup, then round. */
  method CalculateCompatibility(dish1: BaseDish, dish2: BaseDish) returns (c: nat)
    ensures c == Compatibility(dish1.attrs, dish2.attrs)
    ensures 40 <= c <= 95
  {
    var x, y := dish1.attrs, dish2.attrs;
    var score := 0;
    var weights := 0;
    score := score + EnergyScore(x, y) * 15;
    weights := weights + 15;
    score := score + FlavorScore(x, y) * 15;
    weights := weights + 15;
    score := score + TimeScore(x, y) * 12;
    weights := weights + 12;
    score := score + SocialScore(x, y) * 10;
    weights := weights + 10;
    score := score + CultureScore(x, y) * 10;
    weights := weights + 10;
    score := score + TextureScore(x, y) * 10;
    weights := weights + 10;
    score := score + AdventureScore(x, y) * 8;
    weights := weights + 8;
    assert weights == 80 && score == WeightedSum(x, y);
    c := RoundHalfUp(score, weights);
  }

  // ---------------------------------------------------------------------------------------
  // generateReason.

  const SweetSpicyText := "Sweet meets spicy for perfect balance"
  const MorningText := "Morning besties who start the day right"
  const TextureText := "Crunchy meets soft for textural harmony"
  const EnergyText := "Same energy, same vibe"
  const ExtrovertText := "Social butterflies together"
  const IntrovertText := "Quiet companionship"
  const AmbivertText := "Perfectly balanced together"
  const HeritageText := "Heritage heroes united"
  const StreetText := "Street food legends"
  const DefaultReason := "Complementary flavors and vibes"

  predicate SweetSpicy(x: QuizAttributes, y: QuizAttributes)
  {
    (x.flavorProfile == Sweet && y.flavorProfile == Spicy) || (x.flavorProfile == Spicy && y.flavorProfile == Sweet)
  }

  predicate BothMorning(x: QuizAttributes, y: QuizAttributes)
  {
    x.timeOfDay == Morning && y.timeOfDay == Morning
  }

  predicate CrunchySoft(x: QuizAttributes, y: QuizAttributes)
  {
    (x.texturePreference == Crunchy && y.texturePreference == Soft)
      || (x.texturePreference == Soft && y.texturePreference == Crunchy)
  }

  /** Equal culture pushes a reason only for "root-deep" and "street-smart". */
  predicate SharedNamedCulture(x: QuizAttributes, y: QuizAttributes)
  {
    x.culturalAuthenticity == y.culturalAuthenticity && x.culturalAuthenticity != ModernFusion
  }

  /** Whether any of the checks of generateReason pushes a reason. */
  predicate AnyReasonApplies(x: QuizAttributes, y: QuizAttributes)
  {
    || SweetSpicy(x, y) || BothMorning(x, y) || CrunchySoft(x, y)
    || x.energyLevel == y.energyLevel || x.socialPreference == y.socialPreference
    || SharedNamedCulture(x, y)
  }

  /** The text of the first check that holds, in the order the checks are made. */
  function Reason(x: QuizAttributes, y: QuizAttributes): string
  {
    if SweetSpicy(x, y) then SweetSpicyText
    else if BothMorning(x, y) then MorningText
    else if CrunchySoft(x, y) then TextureText
    else if x.energyLevel == y.energyLevel then EnergyText
    else if x.socialPreference == y.socialPreference then
      (if x.socialPreference == Extrovert then ExtrovertText
       else if x.socialPreference == Introvert then IntrovertText
       else AmbivertText)
    else if SharedNamedCulture(x, y) then
      (if x.culturalAuthenticity == RootDeep then HeritageText else StreetText)
    else DefaultReason
  }

  /** generateReason: push the text of every check that holds, the default text when none
      does, and return the first. */
  method GenerateReason(x: QuizAttributes, y: QuizAttributes) returns (reason: string)
    ensures reason == Reason(x, y)
  {
    var reasons: seq<string> := [];
    if (x.flavorProfile == Sweet && y.flavorProfile == Spicy) || (x.flavorProfile == Spicy && y.flavorProfile == Sweet) {
      reasons := reasons + [SweetSpicyText];
    }
    assert reasons == (if SweetSpicy(x, y) then [SweetSpicyText] else []);
    if x.timeOfDay == Morning && y.timeOfDay == Morning {
      reasons := reasons + [MorningText];
    }
    assert reasons != [] ==> reasons[0] == (if SweetSpicy(x, y) then SweetSpicyText else MorningText);
    assert reasons == [] <==> !SweetSpicy(x, y) && !BothMorning(x, y);
    if (x.texturePreference == Crunchy && y.texturePreference == Soft)
      || (x.texturePreference == Soft && y.texturePreference == Crunchy) {
      reasons := reasons + [TextureText];
    }
    assert reasons != [] ==> reasons[0] == Reason(x, y);
    assert reasons == [] <==> !SweetSpicy(x, y) && !BothMorning(x, y) && !CrunchySoft(x, y);
    if x.energyLevel == y.energyLevel {
      reasons := reasons + [EnergyText];
    }
    if x.socialPreference == y.socialPreference {
      if x.socialPreference == Extrovert {
        reasons := reasons + [ExtrovertText];
      } else if x.socialPreference == Introvert {
        reasons := reasons + [IntrovertText];
      } else {
        reasons := reasons + [AmbivertText];
      }
    }
    if x.culturalAuthenticity == y.culturalAuthenticity {
      if x.culturalAuthenticity == RootDeep {
        reasons := reasons + [HeritageText];
      } else if x.culturalAuthenticity == StreetSmart {
        reasons := reasons + [StreetText];
      }
    }
    if |reasons| == 0 {
      reasons := reasons + [DefaultReason];
    }
    reason := reasons[0];
  }

  /** The default text is returned exactly when no check holds. */
  lemma DefaultReasonIffNoCheck(x: QuizAttributes, y: QuizAttributes)
    ensures Reason(x, y) == DefaultReason <==> !AnyReasonApplies(x, y)
  {
    assert SweetSpicyText[0] != DefaultReason[0] && MorningText[0] != DefaultReason[0];
    assert TextureText[1] != DefaultReason[1] && EnergyText[0] != DefaultReason[0];
    assert ExtrovertText[0] != DefaultReason[0] && IntrovertText[0] != DefaultReason[0];
    assert AmbivertText[0] != DefaultReason[0] && HeritageText[0] != DefaultReason[0];
    assert StreetText[0] != DefaultReason[0];
  }

  lemma ReasonSymmetric(x: QuizAttributes, y: QuizAttributes)
    ensures Reason(x, y) == Reason(y, x)
  {
    assert SweetSpicy(x, y) == SweetSpicy(y, x) && CrunchySoft(x, y) == CrunchySoft(y, x);
  }

  // ---------------------------------------------------------------------------------------
  // computeBestPairing.

  /** The record computeBestPairing and computeAllPairings build for a partner. */
  function PairingWith(dish: BaseDish, other: BaseDish): (p: PairedWith)
    ensures p.dishId == other.id && 40 <= p.compatibilityScore <= 95
  {
    PairedWith(other.id, Reason(dish.attrs, other.attrs), Compatibility(dish.attrs, other.attrs))
  }

  /** Among the first n dishes, k is the first one of highest compatibility with dish, not
      counting dishes that share dish's id. */
  ghost predicate IsBestPairIn(dish: BaseDish, all: seq<BaseDish>, n: int, k: int)
    requires 0 <= n <= |all|
  {
    && 0 <= k < n && all[k].id != dish.id
    && (forall j :: 0 <= j < n && all[j].id != dish.id
          ==> Compatibility(dish.attrs, all[j].attrs) <= Compatibility(dish.attrs, all[k].attrs))
    && (forall j :: 0 <= j < k && all[j].id != dish.id
          ==> Compatibility(dish.attrs, all[j].attrs) < Compatibility(dish.attrs, all[k].attrs))
  }

  ghost predicate IsBestPair(dish: BaseDish, all: seq<BaseDish>, k: int)
  {
    IsBestPairIn(dish, all, |all|, k)
  }

  /** computeBestPairing: null exactly when every dish shares dish's id (every compatibility is
      at least 40, so the first other dish already beats the initial 0); otherwise the record
      for the first dish of highest compatibility, never dish's own id. */
  method ComputeBestPairing(dish: BaseDish, all: seq<BaseDish>) returns (best: Option<PairedWith>)
    ensures best.None? <==> forall j :: 0 <= j < |all| ==> all[j].id == dish.id
    ensures best.Some? ==> exists k :: IsBestPair(dish, all, k) && best.value == PairingWith(dish, all[k])
    ensures best.Some? ==> best.value.dishId != dish.id
  {
    best := None;
    var bestScore := 0;
    ghost var k := -1;
    for i := 0 to |all|
      invariant best.None? <==> forall j :: 0 <= j < i ==> all[j].id == dish.id
      invariant best.None? ==> bestScore == 0
      invariant best.Some? ==> IsBestPairIn(dish, all, i, k) && best.value == PairingWith(dish, all[k])
                               && bestScore == Compatibility(dish.attrs, all[k].attrs)
    {
      var other := all[i];
      if other.id != dish.id {
        var score := CalculateCompatibility(dish, other);
        if score > bestScore {
          BestPairNew(dish, all, i, k, best.Some?);
          bestScore := score;
          var reason := GenerateReason(dish.attrs, other.attrs);
          best := Some(PairedWith(other.id, reason, score));
          k := i;
        } else {
          BestPairKept(dish, all, i, k);
        }
      } else if best.Some? {
        BestPairKept(dish, all, i, k);
      }
    }
  }

  /** A dish that does not beat the best so far leaves it the best. */
  lemma BestPairKept(dish: BaseDish, all: seq<BaseDish>, i: int, k: int)
    requires 0 <= i < |all|
    requires IsBestPairIn(dish, all, i, k)
    requires all[i].id != dish.id ==> Compatibility(dish.attrs, all[i].attrs) <= Compatibility(dish.attrs, all[k].attrs)
    ensures IsBestPairIn(dish, all, i + 1, k)
  {
  }

  /** A dish that beats the best so far, or the first dish of another id, becomes the best. */
  lemma BestPairNew(dish: BaseDish, all: seq<BaseDish>, i: int, k: int, found: bool)
    requires 0 <= i < |all| && all[i].id != dish.id
    requires !found ==> forall j :: 0 <= j < i ==> all[j].id == dish.id
    requires found ==> IsBestPairIn(dish, all, i, k)
                       && Compatibility(dish.attrs, all[i].attrs) > Compatibility(dish.attrs, all[k].attrs)
    ensures IsBestPairIn(dish, all, i + 1, i)
  {
  }

  // ---------------------------------------------------------------------------------------
  // computeAllPairings.

  function ScoreOf(p: PairedWith): int
  {
    p.compatibilityScore
  }

  function DishIdOf(p: PairedWith): DishId
  {
    p.dishId
  }

  /** What the inner loop pushes: a record per other-id dish scoring at least 70, in order. */
  function Candidates(dish: BaseDish, others: seq<BaseDish>): seq<PairedWith>
  {
    if others == [] then []
    else
      var init, other := Candidates(dish, others[..|others| - 1]), others[|others| - 1];
      if other.id != dish.id && Compatibility(dish.attrs, other.attrs) >= 70
      then init + [PairingWith(dish, other)]
      else init
  }

  /** A dish's list: its candidates after the stable descending sort. */
  function PairingsFor(dish: BaseDish, all: seq<BaseDish>): seq<PairedWith>
  {
    SortDesc(Candidates(dish, all), ScoreOf)
  }

  /** The map built by successive `Map.set` calls: a later key overwrites an earlier one. */
  function FoldMap<K(==), V>(entries: seq<(K, V)>): map<K, V>
  {
    if entries == [] then map[]
    else FoldMap(entries[..|entries| - 1])[entries[|entries| - 1].0 := entries[|entries| - 1].1]
  }

  function PairingEntries(dishes: seq<BaseDish>, all: seq<BaseDish>): (es: seq<(DishId, seq<PairedWith>)>)
    ensures |es| == |dishes|
    ensures forall i :: 0 <= i < |dishes| ==> es[i] == (dishes[i].id, PairingsFor(dishes[i], all))
  {
    seq(|dishes|, i requires 0 <= i < |dishes| => (dishes[i].id, PairingsFor(dishes[i], all)))
  }

  /** The map computeAllPairings returns. */
  function PairingMap(dishes: seq<BaseDish>): map<DishId, seq<PairedWith>>
  {
    FoldMap(PairingEntries(dishes, dishes))
  }

  /** The inner loop of computeAllPairings: push a record for every other-id dish scoring at
      least 70 against dish, in catalog order. */
  method CollectPartners(dish: BaseDish, dishes: seq<BaseDish>) returns (pairings: seq<PairedWith>)
    ensures pairings == Candidates(dish, dishes)
  {
    pairings := [];
    for j := 0 to |dishes|
      invariant pairings == Candidates(dish, dishes[..j])
    {
      assert dishes[..j + 1][..j] == dishes[..j];
      var other := dishes[j];
      if other.id != dish.id {
        var score := CalculateCompatibility(dish, other);
        if score >= 70 {
          var reason := GenerateReason(dish.attrs, other.attrs);
          pairings := pairings + [PairedWith(other.id, reason, score)];
        }
      }
    }
    assert dishes[..|dishes|] == dishes;
  }

  /** computeAllPairings: for every dish, collect the qualifying partners, sort them by score
      (highest first, stably), and set the list under the dish's id. */
  method ComputeAllPairings(dishes: seq<BaseDish>) returns (pairingMap: map<DishId, seq<PairedWith>>)
    ensures pairingMap == PairingMap(dishes)
  {
    pairingMap := map[];
    for i := 0 to |dishes|
      invariant pairingMap == FoldMap(PairingEntries(dishes[..i], dishes))
    {
      var dish := dishes[i];
      var pairings := CollectPartners(dish, dishes);
      pairings := SortDesc(pairings, ScoreOf);
      assert PairingEntries(dishes[..i + 1], dishes)[..i] == PairingEntries(dishes[..i], dishes);
      pairingMap := pairingMap[dish.id := pairings];
    }
    assert dishes[..|dishes|] == dishes;
  }

  // ---------------------------------------------------------------------------------------
  // Properties of the candidates and of the sorted lists.

  /** Every candidate is the record for a qualifying other-id dish, and every qualifying dish
      has a candidate. */
  lemma {:induction false} CandidatesMembers(dish: BaseDish, others: seq<BaseDish>)
    ensures forall p :: p in Candidates(dish, others) ==>
              exists o :: o in others && o.id != dish.id && Compatibility(dish.attrs, o.attrs) >= 70
                          && p == PairingWith(dish, o)
    ensures forall o :: o in others && o.id != dish.id && Compatibility(dish.attrs, o.attrs) >= 70
              ==> PairingWith(dish, o) in Candidates(dish, others)
  {
    if others != [] {
      var init := others[..|others| - 1];
      CandidatesMembers(dish, init);
      assert others == init + [others[|others| - 1]];
    }
  }

  /** With unique ids no partner appears twice. */
  lemma {:induction false} CandidatesDistinct(dish: BaseDish, others: seq<BaseDish>)
    requires forall i, j :: 0 <= i < j < |others| ==> others[i].id != others[j].id
    ensures DistinctBy(Candidates(dish, others), DishIdOf)
  {
    if others != [] {
      var init, last := others[..|others| - 1], others[|others| - 1];
      CandidatesDistinct(dish, init);
      CandidatesMembers(dish, init);
      var c := Candidates(dish, init);
      forall i | 0 <= i < |c| ensures c[i].dishId != last.id {
        assert c[i] in c;
        var o :| o in init && c[i] == PairingWith(dish, o);
        var m :| 0 <= m < |init| && init[m] == o;
        assert others[m] == o;
      }
    }
  }

  /** A partner id occurs in dish's list exactly when some other-id dish with that id scores
      at least 70 against dish. */
  lemma PairingsMembership(dish: BaseDish, all: seq<BaseDish>, id: DishId)
    ensures (exists p :: p in PairingsFor(dish, all) && p.dishId == id)
        <==> exists o :: o in all && o.id == id && id != dish.id && Compatibility(dish.attrs, o.attrs) >= 70
  {
    SortMembers(Candidates(dish, all), ScoreOf);
    CandidatesMembers(dish, all);
    if exists o :: o in all && o.id == id && id != dish.id && Compatibility(dish.attrs, o.attrs) >= 70 {
      var o :| o in all && o.id == id && id != dish.id && Compatibility(dish.attrs, o.attrs) >= 70;
      assert PairingWith(dish, o) in PairingsFor(dish, all);
    }
  }

  /** A dish's list never names the dish itself, scores at least 70 everywhere, and is sorted
      by score, highest first. */
  lemma PairingsShape(dish: BaseDish, all: seq<BaseDish>)
    ensures forall p :: p in PairingsFor(dish, all) ==> p.dishId != dish.id && p.compatibilityScore >= 70
    ensures NonIncreasing(PairingsFor(dish, all), ScoreOf)
  {
    SortMembers(Candidates(dish, all), ScoreOf);
    CandidatesMembers(dish, all);
    SortSorted(Candidates(dish, all), ScoreOf);
  }

  /** Among equal scores the list keeps catalog order. */
  lemma PairingsStable(dish: BaseDish, all: seq<BaseDish>, score: int)
    ensures WithRank(PairingsFor(dish, all), ScoreOf, score) == WithRank(Candidates(dish, all), ScoreOf, score)
  {
    SortStable(Candidates(dish, all), ScoreOf, score);
  }

  /** With unique ids every partner appears once. */
  lemma PairingsDistinct(dish: BaseDish, all: seq<BaseDish>)
    requires forall i, j :: 0 <= i < j < |all| ==> all[i].id != all[j].id
    ensures DistinctBy(PairingsFor(dish, all), DishIdOf)
  {
    CandidatesDistinct(dish, all);
    SortDistinct(Candidates(dish, all), ScoreOf, DishIdOf);
  }

  // ---------------------------------------------------------------------------------------
  // Properties of FoldMap and of the pairing map.

  lemma {:induction false} FoldMapKeys<K, V>(entries: seq<(K, V)>)
    ensures forall k :: k in FoldMap(entries) <==> exists i :: 0 <= i < |entries| && entries[i].0 == k
  {
    if entries != [] {
      var init := entries[..|entries| - 1];
      FoldMapKeys(init);
      forall k ensures k in FoldMap(entries) <==> exists i :: 0 <= i < |entries| && entries[i].0 == k {
        if exists i :: 0 <= i < |init| && init[i].0 == k {
          var i :| 0 <= i < |init| && init[i].0 == k;
          assert entries[i].0 == k;
        }
        if exists i :: 0 <= i < |entries| && entries[i].0 == k {
          var i :| 0 <= i < |entries| && entries[i].0 == k;
          if i < |init| {
            assert init[i].0 == k;
          }
        }
      }
    }
  }

  /** The value stored under a key is that of its last entry. */
  lemma {:induction false} FoldMapLastWins<K, V>(entries: seq<(K, V)>, i: int)
    requires 0 <= i < |entries|
    requires forall j :: i < j < |entries| ==> entries[j].0 != entries[i].0
    ensures entries[i].0 in FoldMap(entries) && FoldMap(entries)[entries[i].0] == entries[i].1
  {
    if i < |entries| - 1 {
      var init := entries[..|entries| - 1];
      assert forall j :: i < j < |init| ==> init[j] == entries[j];
      FoldMapLastWins(init, i);
    }
  }

  /** With unique keys every entry is found under its key. */
  lemma FoldMapDistinct<K, V>(entries: seq<(K, V)>, i: int)
    requires 0 <= i < |entries|
    requires forall a, b :: 0 <= a < b < |entries| ==> entries[a].0 != entries[b].0
    ensures entries[i].0 in FoldMap(entries) && FoldMap(entries)[entries[i].0] == entries[i].1
  {
    FoldMapLastWins(entries, i);
  }

  /** The map's keys are the catalog ids; with unique ids each dish's entry is its own list. */
  lemma PairingMapLookup(dishes: seq<BaseDish>, i: int)
    requires 0 <= i < |dishes|
    requires forall a, b :: 0 <= a < b < |dishes| ==> dishes[a].id != dishes[b].id
    ensures forall id :: id in PairingMap(dishes) <==> exists j :: 0 <= j < |dishes| && dishes[j].id == id
    ensures dishes[i].id in PairingMap(dishes)
    ensures PairingMap(dishes)[dishes[i].id] == PairingsFor(dishes[i], dishes)
  {
    var es := PairingEntries(dishes, dishes);
    FoldMapKeys(es);
    FoldMapDistinct(es, i);
  }

  /** With distinct ids, dish a lists dish b exactly when they are different dishes of
      compatibility at least 70. */
  lemma PairedIffCompatible(dishes: seq<BaseDish>, a: int, b: int)
    requires 0 <= a < |dishes| && 0 <= b < |dishes|
    requires forall i, j :: 0 <= i < j < |dishes| ==> dishes[i].id != dishes[j].id
    ensures (exists p :: p in PairingsFor(dishes[a], dishes) && p.dishId == dishes[b].id)
        <==> a != b && Compatibility(dishes[a].attrs, dishes[b].attrs) >= 70
  {
    var da, db := dishes[a], dishes[b];
    PairingsMembership(da, dishes, db.id);
    if exists o :: o in dishes && o.id == db.id && db.id != da.id && Compatibility(da.attrs, o.attrs) >= 70 {
      var o :| o in dishes && o.id == db.id && db.id != da.id && Compatibility(da.attrs, o.attrs) >= 70;
      var m :| 0 <= m < |dishes| && dishes[m] == o;
      assert m == b;
    }
    if a != b && Compatibility(da.attrs, db.attrs) >= 70 {
      assert db in dishes;
    }
  }

  /** Before any override the pairing relation is symmetric: b is in a's list exactly when a
      is in b's list. */
  lemma PairingsSymmetric(dishes: seq<BaseDish>, a: int, b: int)
    requires 0 <= a < |dishes| && 0 <= b < |dishes|
    requires forall i, j :: 0 <= i < j < |dishes| ==> dishes[i].id != dishes[j].id
    ensures dishes[a].id in PairingMap(dishes) && dishes[b].id in PairingMap(dishes)
    ensures (exists p :: p in PairingMap(dishes)[dishes[a].id] && p.dishId == dishes[b].id)
        <==> (exists p :: p in PairingMap(dishes)[dishes[b].id] && p.dishId == dishes[a].id)
  {
    PairingMapLookup(dishes, a);
    PairingMapLookup(dishes, b);
    PairedIffCompatible(dishes, a, b);
    PairedIffCompatible(dishes, b, a);
    CompatibilitySymmetric(dishes[a].attrs, dishes[b].attrs);
  }

  // ---------------------------------------------------------------------------------------
  // classicPairings and getClassicPairingReason. The DISH_IDS constants are not part of
  // this model: `ids` maps each name the two tables use to its id.

  datatype Named =
    | KayaToast | Kopi | SoftBoilledEggs | PorkCongee | YouTiao | BakKutTeh | CharKwayTeo
    | Tea | Satay | Cendol | Rojak | NasiLemak | HainaneseChickenRice | Laksa | EggPrata
    | CurryRice

  type Ids = Named -> DishId

  ghost predicate Injective(ids: Ids)
  {
    forall a, b :: ids(a) == ids(b) ==> a == b
  }

  /** The classic-pair table, row by row in declaration order. */
  const ClassicRows: seq<(Named, seq<Named>)> := [
    (KayaToast, [Kopi, SoftBoilledEggs]),
    (Kopi, [KayaToast]),
    (PorkCongee, [YouTiao]),
    (YouTiao, [PorkCongee, Kopi]),
    (BakKutTeh, [YouTiao]),
    (CharKwayTeo, [Tea]),
    (Satay, [Tea, Cendol]),
    (Tea, [Satay, CharKwayTeo, EggPrata]),
    (Cendol, [Rojak, Satay]),
    (Rojak, [Cendol]),
    (NasiLemak, [KayaToast, Tea]),
    (HainaneseChickenRice, [KayaToast]),
    (Laksa, [Cendol]),
    (EggPrata, [Tea, CurryRice])]

  /** The classic-reason table, keyed by ordered pair, in declaration order. */
  const ReasonRows: seq<(Named, Named, string)> := [
    (KayaToast, Kopi, "The OG breakfast combo - kaya and kopi for life"),
    (Kopi, KayaToast, "Strong coffee meets sweet kaya - Singapore mornings sorted"),
    (PorkCongee, YouTiao, "Silky congee meets crispy you tiao - comfort food royalty"),
    (YouTiao, PorkCongee, "Dip it like it's hot - the ultimate comfort combo"),
    (BakKutTeh, YouTiao, "Herbal soup and crispy dough - late night perfection"),
    (CharKwayTeo, Tea, "Wok hei needs teh tarik to balance the heat"),
    (Satay, Tea, "Peanut sauce calls for pulled tea"),
    (Tea, Satay, "The refreshing foil to satay's richness"),
    (Cendol, Rojak, "Sweet meets chaotic - a flavor adventure"),
    (Rojak, Cendol, "Cool down the chaos with sweet cendol"),
    (NasiLemak, KayaToast, "Spicy morning meets sweet morning"),
    (HainaneseChickenRice, KayaToast, "Classic meets classic"),
    (Laksa, Cendol, "Spicy laksa needs sweet cendol cool-down"),
    (EggPrata, Tea, "Curry's best friend is teh tarik")]

  function Resolve(ids: Ids, names: seq<Named>): (r: seq<DishId>)
    ensures |r| == |names|
    ensures forall i :: 0 <= i < |names| ==> r[i] == ids(names[i])
  {
    seq(|names|, i requires 0 <= i < |names| => ids(names[i]))
  }

  function ClassicEntries(ids: Ids): (es: seq<(DishId, seq<DishId>)>)
    ensures |es| == |ClassicRows|
    ensures forall i :: 0 <= i < |ClassicRows| ==> es[i] == (ids(ClassicRows[i].0), Resolve(ids, ClassicRows[i].1))
  {
    seq(|ClassicRows|, i requires 0 <= i < |ClassicRows| => (ids(ClassicRows[i].0), Resolve(ids, ClassicRows[i].1)))
  }

  /** classicPairings: the object literal, a later key overwriting an earlier one. */
  function ClassicPairings(ids: Ids): map<DishId, seq<DishId>>
  {
    FoldMap(ClassicEntries(ids))
  }

  function ReasonEntries(ids: Ids): (es: seq<((DishId, DishId), string)>)
    ensures |es| == |ReasonRows|
    ensures forall i :: 0 <= i < |ReasonRows| ==> es[i] == ((ids(ReasonRows[i].0), ids(ReasonRows[i].1)), ReasonRows[i].2)
  {
    seq(|ReasonRows|, i requires 0 <= i < |ReasonRows| => ((ids(ReasonRows[i].0), ids(ReasonRows[i].1)), ReasonRows[i].2))
  }

  /** getClassicPairingReason: the entry for the ordered pair, or the default text when the
      pair has none (or a falsy empty one). */
  function ClassicReason(ids: Ids, dishId: DishId, pairedId: DishId): string
  {
    var reasons := FoldMap(ReasonEntries(ids));
    if (dishId, pairedId) in reasons && reasons[(dishId, pairedId)] != "" then reasons[(dishId, pairedId)]
    else DefaultReason
  }

  /** The classic table lists each dish once and never pairs a dish with itself. */
  lemma ClassicRowsWellFormed()
    ensures forall a, b :: 0 <= a < b < |ClassicRows| ==> ClassicRows[a].0 != ClassicRows[b].0
    ensures forall i :: 0 <= i < |ClassicRows| ==> ClassicRows[i].0 !in ClassicRows[i].1
  {
  }

  /** The keys of classicPairings are exactly the ids of the row heads. */
  lemma ClassicKeys(ids: Ids)
    ensures forall id :: id in ClassicPairings(ids) <==> exists j :: 0 <= j < |ClassicRows| && ids(ClassicRows[j].0) == id
  {
    var es := ClassicEntries(ids);
    FoldMapKeys(es);
    assert forall j :: 0 <= j < |es| ==> es[j].0 == ids(ClassicRows[j].0);
  }

  /** With distinct ids each row is found under its dish, and the keys are exactly the row
      heads; no dish is its own classic partner. */
  lemma ClassicLookup(ids: Ids, i: int)
    requires Injective(ids)
    requires 0 <= i < |ClassicRows|
    ensures forall id :: id in ClassicPairings(ids) <==> exists j :: 0 <= j < |ClassicRows| && ids(ClassicRows[j].0) == id
    ensures ClassicPairings(ids)[ids(ClassicRows[i].0)] == Resolve(ids, ClassicRows[i].1)
    ensures ids(ClassicRows[i].0) !in ClassicPairings(ids)[ids(ClassicRows[i].0)]
  {
    ClassicKeys(ids);
    ClassicRowFound(ids, i);
    var row := ClassicRows[i];
    ClassicRowsWellFormed();
    assert row.0 !in row.1;
    forall m | 0 <= m < |row.1| ensures Resolve(ids, row.1)[m] != ids(row.0) {
      assert row.1[m] != row.0;
    }
  }

  /** With distinct ids, row i is what classicPairings holds under its head. */
  lemma ClassicRowFound(ids: Ids, i: int)
    requires Injective(ids)
    requires 0 <= i < |ClassicRows|
    ensures ids(ClassicRows[i].0) in ClassicPairings(ids)
    ensures ClassicPairings(ids)[ids(ClassicRows[i].0)] == Resolve(ids, ClassicRows[i].1)
  {
    var es := ClassicEntries(ids);
    ClassicRowsWellFormed();
    assert forall a, b :: 0 <= a < b < |es| ==> es[a].0 != es[b].0;
    FoldMapDistinct(es, i);
  }

  /** No dish is its own classic partner when ids are distinct. */
  lemma ClassicNoSelfPair(ids: Ids, id: DishId)
    requires Injective(ids)
    requires id in ClassicPairings(ids)
    ensures id !in ClassicPairings(ids)[id]
  {
    var es := ClassicEntries(ids);
    FoldMapKeys(es);
    var j :| 0 <= j < |es| && es[j].0 == id;
    ClassicLookup(ids, j);
  }

  lemma ReasonRowsDistinct()
    ensures forall a, b :: 0 <= a < b < |ReasonRows| ==> (ReasonRows[a].0, ReasonRows[a].1) != (ReasonRows[b].0, ReasonRows[b].1)
    ensures forall i :: 0 <= i < |ReasonRows| ==> ReasonRows[i].2 != ""
  {
  }

  /** With distinct ids each ordered pair of the reason table yields its text. */
  lemma ClassicReasonLookup(ids: Ids, i: int)
    requires Injective(ids)
    requires 0 <= i < |ReasonRows|
    ensures ClassicReason(ids, ids(ReasonRows[i].0), ids(ReasonRows[i].1)) == ReasonRows[i].2
  {
    var es := ReasonEntries(ids);
    ReasonRowsDistinct();
    forall a, b | 0 <= a < b < |es| ensures es[a].0 != es[b].0 {
      assert ReasonRows[a].0 != ReasonRows[b].0 || ReasonRows[a].1 != ReasonRows[b].1;
    }
    FoldMapDistinct(es, i);
  }

  /** A pair the reason table does not list yields the default text. */
  lemma ClassicReasonDefault(ids: Ids, dishId: DishId, pairedId: DishId)
    requires forall i :: 0 <= i < |ReasonRows| ==> (ids(ReasonRows[i].0), ids(ReasonRows[i].1)) != (dishId, pairedId)
    ensures ClassicReason(ids, dishId, pairedId) == DefaultReason
  {
    var es := ReasonEntries(ids);
    FoldMapKeys(es);
    assert forall i :: 0 <= i < |es| ==> es[i].0 != (dishId, pairedId);
  }

  /** The reason table is keyed by ordered pair: kaya toast with kopi and kopi with kaya toast
      read differently. */
  lemma ClassicReasonOrdered(ids: Ids)
    requires Injective(ids)
    ensures ClassicReason(ids, ids(KayaToast), ids(Kopi)) != ClassicReason(ids, ids(Kopi), ids(KayaToast))
  {
    var kayaKopi, kopiKaya := ReasonRows[0].2, ReasonRows[1].2;
    assert kayaKopi == "The OG breakfast combo - kaya and kopi for life";
    assert kopiKaya == "Strong coffee meets sweet kaya - Singapore mornings sorted";
    assert |kayaKopi| != |kopiKaya|;
    ClassicReasonLookup(ids, 0);
    ClassicReasonLookup(ids, 1);
  }

  /** The classic pair kaya toast with soft-boiled eggs has no reason entry, so it gets the
      default text. */
  lemma ClassicReasonMissing(ids: Ids)
    requires Injective(ids)
    ensures ClassicReason(ids, ids(KayaToast), ids(SoftBoilledEggs)) == DefaultReason
  {
    forall i | 0 <= i < |ReasonRows| ensures (ids(ReasonRows[i].0), ids(ReasonRows[i].1)) != (ids(KayaToast), ids(SoftBoilledEggs)) {
      assert (ReasonRows[i].0, ReasonRows[i].1) != (KayaToast, SoftBoilledEggs);
    }
    ClassicReasonDefault(ids, ids(KayaToast), ids(SoftBoilledEggs));
  }
}
