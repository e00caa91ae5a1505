/** The answer-to-dish matcher shared by src/data/questions.ts and src/app/result/page.tsx:
    tally the chosen answers per dimension, reduce every dimension to its most common value,
    score every catalog dish by the weights of the dimensions it shares with that profile,
    and keep the first dish of strictly highest score. The two files differ only in where
    their constants come from, so the algorithm here takes the tally-table key lists and
    the weights as parameters. Weights are in tenths (1.5 is 15). */
module Matcher {
  import opened Types
  import opened StableSort

  /** Object.entries of one per-dimension counter object, in declaration order. */
  type Table<K> = seq<(K, nat)>

  /** The keys of the eight counter objects, each in declaration order. */
  datatype TallyKeys = TallyKeys(
    energyLevel: seq<EnergyLevel>,
    socialPreference: seq<SocialPreference>,
    flavorProfile: seq<FlavorProfile>,
    adventureLevel: seq<AdventureLevel>,
    timeOfDay: seq<TimeOfDay>,
    setting: seq<Setting>,
    texturePreference: seq<TexturePreference>,
    culturalAuthenticity: seq<CulturalAuthenticity>)

  /** The eight counter objects. */
  datatype Scores = Scores(
    energyLevel: Table<EnergyLevel>,
    socialPreference: Table<SocialPreference>,
    flavorProfile: Table<FlavorProfile>,
    adventureLevel: Table<AdventureLevel>,
    timeOfDay: Table<TimeOfDay>,
    setting: Table<Setting>,
    texturePreference: Table<TexturePreference>,
    culturalAuthenticity: Table<CulturalAuthenticity>)

  type Weights = Dim -> nat

  // ---------------------------------------------------------------------------------------
  // What one entry of Object.values(answers) tags on each dimension. A null entry, or an
  // answer without a trait record, tags nothing.

  function TraitsOf(a: Option<Answer>): Option<AnswerTraits>
  {
    if a.Some? then a.value.traits else None
  }

  function EnergyTag(a: Option<Answer>): Option<EnergyLevel>
  {
    if TraitsOf(a).Some? then TraitsOf(a).value.energyLevel else None
  }

  function SocialTag(a: Option<Answer>): Option<SocialPreference>
  {
    if TraitsOf(a).Some? then TraitsOf(a).value.socialPreference else None
  }

  function FlavorTag(a: Option<Answer>): Option<FlavorProfile>
  {
    if TraitsOf(a).Some? then TraitsOf(a).value.flavorProfile else None
  }

  function AdventureTag(a: Option<Answer>): Option<AdventureLevel>
  {
    if TraitsOf(a).Some? then TraitsOf(a).value.adventureLevel else None
  }

  function TimeTag(a: Option<Answer>): Option<TimeOfDay>
  {
    if TraitsOf(a).Some? then TraitsOf(a).value.timeOfDay else None
  }

  function SettingTag(a: Option<Answer>): Option<Setting>
  {
    if TraitsOf(a).Some? then TraitsOf(a).value.setting else None
  }

  function TextureTag(a: Option<Answer>): Option<TexturePreference>
  {
    if TraitsOf(a).Some? then TraitsOf(a).value.texturePreference else None
  }

  function CultureTag(a: Option<Answer>): Option<CulturalAuthenticity>
  {
    if TraitsOf(a).Some? then TraitsOf(a).value.culturalAuthenticity else None
  }

  /** Every value the answer tags is a key of that dimension's counter object (the answer-side
      value types guarantee this; an out-of-table value would create a NaN entry). */
  predicate InTables(keys: TallyKeys, a: Option<Answer>)
  {
    && (EnergyTag(a).Some? ==> EnergyTag(a).value in keys.energyLevel)
    && (SocialTag(a).Some? ==> SocialTag(a).value in keys.socialPreference)
    && (FlavorTag(a).Some? ==> FlavorTag(a).value in keys.flavorProfile)
    && (AdventureTag(a).Some? ==> AdventureTag(a).value in keys.adventureLevel)
    && (TimeTag(a).Some? ==> TimeTag(a).value in keys.timeOfDay)
    && (SettingTag(a).Some? ==> SettingTag(a).value in keys.setting)
    && (TextureTag(a).Some? ==> TextureTag(a).value in keys.texturePreference)
    && (CultureTag(a).Some? ==> CultureTag(a).value in keys.culturalAuthenticity)
  }

  // ---------------------------------------------------------------------------------------
  // The tally: the specification of the counters after the loop.

  /** How many of the answers tag their dimension with k. */
  function Count<K(==)>(xs: seq<Option<Answer>>, tag: Option<Answer> -> Option<K>, k: K): nat
  {
    if xs == [] then 0
    else Count(xs[..|xs| - 1], tag, k) + (if tag(xs[|xs| - 1]) == Some(k) then 1 else 0)
  }

  /** How many of the answers tag the dimension at all. */
  function Tagged<K>(xs: seq<Option<Answer>>, tag: Option<Answer> -> Option<K>): nat
  {
    if xs == [] then 0
    else Tagged(xs[..|xs| - 1], tag) + (if tag(xs[|xs| - 1]).Some? then 1 else 0)
  }

  /** The counter object a dimension ends with: each key with the number of answers tagging it. */
  function TableOf<K(==)>(keys: seq<K>, xs: seq<Option<Answer>>, tag: Option<Answer> -> Option<K>): (t: Table<K>)
    ensures |t| == |keys|
    ensures forall i :: 0 <= i < |keys| ==> t[i] == (keys[i], Count(xs, tag, keys[i]))
  {
    if keys == [] then [] else [(keys[0], Count(xs, tag, keys[0]))] + TableOf(keys[1..], xs, tag)
  }

  function ScoresOf(keys: TallyKeys, xs: seq<Option<Answer>>): Scores
  {
    Scores(
      TableOf(keys.energyLevel, xs, EnergyTag),
      TableOf(keys.socialPreference, xs, SocialTag),
      TableOf(keys.flavorProfile, xs, FlavorTag),
      TableOf(keys.adventureLevel, xs, AdventureTag),
      TableOf(keys.timeOfDay, xs, TimeTag),
      TableOf(keys.setting, xs, SettingTag),
      TableOf(keys.texturePreference, xs, TextureTag),
      TableOf(keys.culturalAuthenticity, xs, CultureTag))
  }

  /** `scores[trait][value]++`: the entry keyed k goes up by one, the others stay. */
  function Bump<K(==)>(t: Table<K>, k: K): (r: Table<K>)
    ensures |r| == |t|
    ensures forall i :: 0 <= i < |t| ==> r[i] == if t[i].0 == k then (k, t[i].1 + 1) else t[i]
  {
    seq(|t|, i requires 0 <= i < |t| => if t[i].0 == k then (k, t[i].1 + 1) else t[i])
  }

  lemma TableAppend<K>(keys: seq<K>, xs: seq<Option<Answer>>, x: Option<Answer>, tag: Option<Answer> -> Option<K>)
    ensures TableOf(keys, xs + [x], tag)
         == if tag(x).Some? then Bump(TableOf(keys, xs, tag), tag(x).value) else TableOf(keys, xs, tag)
  {
    assert (xs + [x])[..|xs|] == xs;
  }

  /** `if (scores[trait] && value) scores[trait][value]++` for one dimension. */
  function BumpIf<K(==)>(t: Table<K>, v: Option<K>): Table<K>
  {
    if v.Some? then Bump(t, v.value) else t
  }

  /** The counters after one more answer: every dimension it tags is bumped. */
  function TallyStep(s: Scores, a: Option<Answer>): Scores
  {
    Scores(
      BumpIf(s.energyLevel, EnergyTag(a)),
      BumpIf(s.socialPreference, SocialTag(a)),
      BumpIf(s.flavorProfile, FlavorTag(a)),
      BumpIf(s.adventureLevel, AdventureTag(a)),
      BumpIf(s.timeOfDay, TimeTag(a)),
      BumpIf(s.setting, SettingTag(a)),
      BumpIf(s.texturePreference, TextureTag(a)),
      BumpIf(s.culturalAuthenticity, CultureTag(a)))
  }

  /** Counting one more answer is one tally step. */
  lemma ScoresAppend(keys: TallyKeys, xs: seq<Option<Answer>>, x: Option<Answer>)
    ensures ScoresOf(keys, xs + [x]) == TallyStep(ScoresOf(keys, xs), x)
  {
    TableAppend(keys.energyLevel, xs, x, EnergyTag);
    TableAppend(keys.socialPreference, xs, x, SocialTag);
    TableAppend(keys.flavorProfile, xs, x, FlavorTag);
    TableAppend(keys.adventureLevel, xs, x, AdventureTag);
    TableAppend(keys.timeOfDay, xs, x, TimeTag);
    TableAppend(keys.setting, xs, x, SettingTag);
    TableAppend(keys.texturePreference, xs, x, TextureTag);
    TableAppend(keys.culturalAuthenticity, xs, x, CultureTag);
  }

  /** The inner loop over one answer's traits: bump each dimension the answer sets. */
  method TallyAnswer(s: Scores, a: Option<Answer>) returns (r: Scores)
    ensures r == TallyStep(s, a)
  {
    r := s;
    if EnergyTag(a).Some? {
      r := r.(energyLevel := Bump(r.energyLevel, EnergyTag(a).value));
    }
    if SocialTag(a).Some? {
      r := r.(socialPreference := Bump(r.socialPreference, SocialTag(a).value));
    }
    if FlavorTag(a).Some? {
      r := r.(flavorProfile := Bump(r.flavorProfile, FlavorTag(a).value));
    }
    if AdventureTag(a).Some? {
      r := r.(adventureLevel := Bump(r.adventureLevel, AdventureTag(a).value));
    }
    if TimeTag(a).Some? {
      r := r.(timeOfDay := Bump(r.timeOfDay, TimeTag(a).value));
    }
    if SettingTag(a).Some? {
      r := r.(setting := Bump(r.setting, SettingTag(a).value));
    }
    if TextureTag(a).Some? {
      r := r.(texturePreference := Bump(r.texturePreference, TextureTag(a).value));
    }
    if CultureTag(a).Some? {
      r := r.(culturalAuthenticity := Bump(r.culturalAuthenticity, CultureTag(a).value));
    }
  }

  /** The tally loop of calculateResult: visit every answer and bump, for each dimension it
      tags, that dimension's counter for the tagged value. */
  method Tally(keys: TallyKeys, answers: seq<Option<Answer>>) returns (s: Scores)
    requires forall a :: a in answers ==> InTables(keys, a)
    ensures s == ScoresOf(keys, answers)
  {
    s := ScoresOf(keys, []);
    var i := 0;
    while i < |answers|
      invariant 0 <= i <= |answers|
      invariant s == ScoresOf(keys, answers[..i])
    {
      assert answers[..i + 1] == answers[..i] + [answers[i]];
      ScoresAppend(keys, answers[..i], answers[i]);
      s := TallyAnswer(s, answers[i]);
      i := i + 1;
    }
    assert answers[..i] == answers;
  }

  // ---------------------------------------------------------------------------------------
  // Tally properties.

  function SumCounts<K>(t: Table<K>): nat
  {
    if t == [] then 0 else t[0].1 + SumCounts(t[1..])
  }

  ghost predicate Distinct<K>(keys: seq<K>)
  {
    forall i, j :: 0 <= i < j < |keys| ==> keys[i] != keys[j]
  }

  lemma {:induction false} BumpSum<K>(t: Table<K>, k: K)
    requires forall i, j :: 0 <= i < j < |t| ==> t[i].0 != t[j].0
    ensures SumCounts(Bump(t, k)) == SumCounts(t) + (if exists i :: 0 <= i < |t| && t[i].0 == k then 1 else 0)
  {
    if t != [] {
      BumpSum(t[1..], k);
      assert Bump(t, k)[1..] == Bump(t[1..], k);
      if t[0].0 == k {
        assert !exists i :: 0 <= i < |t[1..]| && t[1..][i].0 == k by {
          forall i | 0 <= i < |t[1..]| ensures t[1..][i].0 != k {
            assert t[1..][i] == t[i + 1];
          }
        }
      } else {
        if exists i :: 0 <= i < |t| && t[i].0 == k {
          var i :| 0 <= i < |t| && t[i].0 == k;
          assert t[1..][i - 1].0 == k;
        }
        if exists i :: 0 <= i < |t[1..]| && t[1..][i].0 == k {
          var i :| 0 <= i < |t[1..]| && t[1..][i].0 == k;
          assert t[i + 1].0 == k;
        }
      }
    }
  }

  /** The counts of one dimension add up to the number of answers that tag it. */
  lemma {:induction false} TableSum<K>(keys: seq<K>, xs: seq<Option<Answer>>, tag: Option<Answer> -> Option<K>)
    requires Distinct(keys)
    requires forall x :: x in xs && tag(x).Some? ==> tag(x).value in keys
    ensures SumCounts(TableOf(keys, xs, tag)) == Tagged(xs, tag)
  {
    if xs == [] {
      ZeroTableSum(keys, tag);
    } else {
      var init, x := xs[..|xs| - 1], xs[|xs| - 1];
      assert xs == init + [x];
      assert forall y :: y in init ==> y in xs;
      TableSum(keys, init, tag);
      TableAppend(keys, init, x, tag);
      if tag(x).Some? {
        var t := TableOf(keys, init, tag);
        BumpSum(t, tag(x).value);
        var i :| 0 <= i < |keys| && keys[i] == tag(x).value;
        assert t[i].0 == tag(x).value;
      }
    }
  }

  lemma {:induction false} ZeroTableSum<K>(keys: seq<K>, tag: Option<Answer> -> Option<K>)
    ensures SumCounts(TableOf(keys, [], tag)) == 0
  {
    if keys != [] {
      ZeroTableSum(keys[1..], tag);
      assert TableOf(keys, [], tag)[1..] == TableOf(keys[1..], [], tag);
    }
  }

  lemma {:induction false} CountConcat<K>(a: seq<Option<Answer>>, b: seq<Option<Answer>>, tag: Option<Answer> -> Option<K>, k: K)
    ensures Count(a + b, tag, k) == Count(a, tag, k) + Count(b, tag, k)
  {
    if b == [] {
      assert a + b == a;
    } else {
      CountConcat(a, b[..|b| - 1], tag, k);
      assert (a + b)[..|a + b| - 1] == a + b[..|b| - 1];
    }
  }

  /** Taking one answer out of the sequence takes its contribution out of the count. */
  lemma CountRemove<K>(ys: seq<Option<Answer>>, j: int, tag: Option<Answer> -> Option<K>, k: K)
    requires 0 <= j < |ys|
    ensures Count(ys, tag, k)
         == Count(ys[..j] + ys[j + 1..], tag, k) + (if tag(ys[j]) == Some(k) then 1 else 0)
  {
    var front, mid, back := ys[..j], [ys[j]], ys[j + 1..];
    assert ys == front + (mid + back);
    CountConcat(front, mid + back, tag, k);
    CountConcat(mid, back, tag, k);
    CountConcat(front, back, tag, k);
    assert mid[..0] == [];
    assert Count(mid, tag, k) == (if tag(ys[j]) == Some(k) then 1 else 0);
  }

  /** The counts do not depend on the order in which the answers are visited. */
  lemma {:induction false} CountPerm<K>(xs: seq<Option<Answer>>, ys: seq<Option<Answer>>, tag: Option<Answer> -> Option<K>, k: K)
    requires multiset(xs) == multiset(ys)
    ensures Count(xs, tag, k) == Count(ys, tag, k)
    decreases |xs|
  {
    if xs == [] {
      assert |ys| == |multiset(ys)| == 0;
    } else {
      var init, x := xs[..|xs| - 1], xs[|xs| - 1];
      assert xs == init + [x];
      assert x in multiset(ys);
      var j :| 0 <= j < |ys| && ys[j] == x;
      var rest := ys[..j] + ys[j + 1..];
      assert ys == ys[..j] + [x] + ys[j + 1..];
      assert multiset(init) == multiset(xs) - multiset{x};
      assert multiset(rest) == multiset(ys) - multiset{x};
      CountPerm(init, rest, tag, k);
      CountRemove(ys, j, tag, k);
    }
  }

  lemma TablePerm<K>(keys: seq<K>, xs: seq<Option<Answer>>, ys: seq<Option<Answer>>, tag: Option<Answer> -> Option<K>)
    requires multiset(xs) == multiset(ys)
    ensures TableOf(keys, xs, tag) == TableOf(keys, ys, tag)
  {
    forall i | 0 <= i < |keys| ensures Count(xs, tag, keys[i]) == Count(ys, tag, keys[i]) {
      CountPerm(xs, ys, tag, keys[i]);
    }
  }

  /** The eight counter objects depend only on the multiset of answers. */
  lemma ScoresPerm(keys: TallyKeys, xs: seq<Option<Answer>>, ys: seq<Option<Answer>>)
    requires multiset(xs) == multiset(ys)
    ensures ScoresOf(keys, xs) == ScoresOf(keys, ys)
  {
    TablePerm(keys.energyLevel, xs, ys, EnergyTag);
    TablePerm(keys.socialPreference, xs, ys, SocialTag);
    TablePerm(keys.flavorProfile, xs, ys, FlavorTag);
    TablePerm(keys.adventureLevel, xs, ys, AdventureTag);
    TablePerm(keys.timeOfDay, xs, ys, TimeTag);
    TablePerm(keys.setting, xs, ys, SettingTag);
    TablePerm(keys.texturePreference, xs, ys, TextureTag);
    TablePerm(keys.culturalAuthenticity, xs, ys, CultureTag);
  }

  // ---------------------------------------------------------------------------------------
  // getMostCommon.

  /** What getMostCommon returns: a key of its table, or the literal "medium" for an empty one
      ("medium" is a value of the energy dimension only, so it is kept apart here). */
  datatype Pick<K> = Picked(key: K) | MediumFallback

  function CountOf<K>(e: (K, nat)): int
  {
    e.1
  }

  /** Entry i holds the highest count, and every earlier entry a strictly lower one. */
  ghost predicate IsFirstMax<K>(t: Table<K>, i: int)
  {
    && 0 <= i < |t|
    && (forall j :: 0 <= j < |t| ==> t[j].1 <= t[i].1)
    && (forall j :: 0 <= j < i ==> t[j].1 < t[i].1)
  }

  /** `entries.sort((a, b) => b[1] - a[1])[0][0]`, with the empty-table fallback. */
  function MostCommon<K>(t: Table<K>): (r: Pick<K>)
    ensures r.MediumFallback? <==> |t| == 0
    ensures r.Picked? ==> exists i :: IsFirstMax(t, i) && t[i].0 == r.key
  {
    if |t| == 0 then MediumFallback
    else
      SortHead(t, CountOf);
      var h := SortDesc(t, CountOf)[0];
      assert IsFirstMax(t, FirstMax(t, CountOf));
      Picked(h.0)
  }

  /** The first-maximum entry of a table is unique, so the reduced value is determined. */
  lemma FirstMaxUnique<K>(t: Table<K>, i: int, j: int)
    requires IsFirstMax(t, i) && IsFirstMax(t, j)
    ensures i == j
  {
    assert t[i].1 == t[j].1;
  }

  ghost predicate NonEmptyTables(s: Scores)
  {
    && |s.energyLevel| > 0 && |s.socialPreference| > 0 && |s.flavorProfile| > 0
    && |s.adventureLevel| > 0 && |s.timeOfDay| > 0 && |s.setting| > 0
    && |s.texturePreference| > 0 && |s.culturalAuthenticity| > 0
  }

  ghost predicate NonEmptyKeys(keys: TallyKeys)
  {
    && |keys.energyLevel| > 0 && |keys.socialPreference| > 0 && |keys.flavorProfile| > 0
    && |keys.adventureLevel| > 0 && |keys.timeOfDay| > 0 && |keys.setting| > 0
    && |keys.texturePreference| > 0 && |keys.culturalAuthenticity| > 0
  }

  /** v is the key of the first maximal entry of t. */
  ghost predicate IsMostCommon<K>(t: Table<K>, v: K)
  {
    exists i :: IsFirstMax(t, i) && t[i].0 == v
  }

  /** The userProfile object: every dimension reduced by getMostCommon. On non-empty tables
      the "medium" fallback never fires. */
  function ReduceProfile(s: Scores): (p: QuizAttributes)
    requires NonEmptyTables(s)
    ensures IsMostCommon(s.energyLevel, p.energyLevel)
    ensures IsMostCommon(s.socialPreference, p.socialPreference)
    ensures IsMostCommon(s.flavorProfile, p.flavorProfile)
    ensures IsMostCommon(s.adventureLevel, p.adventureLevel)
    ensures IsMostCommon(s.timeOfDay, p.timeOfDay)
    ensures IsMostCommon(s.setting, p.setting)
    ensures IsMostCommon(s.texturePreference, p.texturePreference)
    ensures IsMostCommon(s.culturalAuthenticity, p.culturalAuthenticity)
  {
    QuizAttributes(
      MostCommon(s.energyLevel).key,
      MostCommon(s.socialPreference).key,
      MostCommon(s.flavorProfile).key,
      MostCommon(s.adventureLevel).key,
      MostCommon(s.timeOfDay).key,
      MostCommon(s.setting).key,
      MostCommon(s.texturePreference).key,
      MostCommon(s.culturalAuthenticity).key)
  }

  /** The profile calculateResult builds from a list of answers. */
  function ProfileOf(keys: TallyKeys, xs: seq<Option<Answer>>): QuizAttributes
    requires NonEmptyKeys(keys)
  {
    ReduceProfile(ScoresOf(keys, xs))
  }

  /** A table built from keys holds, at its first maximum, one of those keys. */
  lemma MostCommonIsKey<K>(keys: seq<K>, xs: seq<Option<Answer>>, tag: Option<Answer> -> Option<K>, v: K)
    requires IsMostCommon(TableOf(keys, xs, tag), v)
    ensures v in keys
  {
    var i :| IsFirstMax(TableOf(keys, xs, tag), i) && TableOf(keys, xs, tag)[i].0 == v;
    assert keys[i] == v;
  }

  /** Every profile value is a key of that dimension's counter object. */
  lemma ProfileInKeys(keys: TallyKeys, xs: seq<Option<Answer>>)
    requires NonEmptyKeys(keys)
    ensures var p := ProfileOf(keys, xs);
      && p.energyLevel in keys.energyLevel
      && p.socialPreference in keys.socialPreference
      && p.flavorProfile in keys.flavorProfile
      && p.adventureLevel in keys.adventureLevel
      && p.timeOfDay in keys.timeOfDay
      && p.setting in keys.setting
      && p.texturePreference in keys.texturePreference
      && p.culturalAuthenticity in keys.culturalAuthenticity
  {
    var p := ProfileOf(keys, xs);
    MostCommonIsKey(keys.energyLevel, xs, EnergyTag, p.energyLevel);
    MostCommonIsKey(keys.socialPreference, xs, SocialTag, p.socialPreference);
    MostCommonIsKey(keys.flavorProfile, xs, FlavorTag, p.flavorProfile);
    MostCommonIsKey(keys.adventureLevel, xs, AdventureTag, p.adventureLevel);
    MostCommonIsKey(keys.timeOfDay, xs, TimeTag, p.timeOfDay);
    MostCommonIsKey(keys.setting, xs, SettingTag, p.setting);
    MostCommonIsKey(keys.texturePreference, xs, TextureTag, p.texturePreference);
    MostCommonIsKey(keys.culturalAuthenticity, xs, CultureTag, p.culturalAuthenticity);
  }

  /** With no answer tagging a dimension every count is 0, so the first declared key wins. */
  lemma UntaggedPicksFirstKey<K>(keys: seq<K>, xs: seq<Option<Answer>>, tag: Option<Answer> -> Option<K>, v: K)
    requires |keys| > 0
    requires Tagged(xs, tag) == 0
    requires IsMostCommon(TableOf(keys, xs, tag), v)
    ensures v == keys[0]
  {
    var t := TableOf(keys, xs, tag);
    forall k ensures Count(xs, tag, k) == 0 {
      NoTagsNoCount(xs, tag, k);
    }
    var i :| IsFirstMax(t, i) && t[i].0 == v;
    assert IsFirstMax(t, 0);
    FirstMaxUnique(t, i, 0);
  }

  lemma {:induction false} NoTagsNoCount<K>(xs: seq<Option<Answer>>, tag: Option<Answer> -> Option<K>, k: K)
    requires Tagged(xs, tag) == 0
    ensures Count(xs, tag, k) == 0
  {
    if xs != [] {
      NoTagsNoCount(xs[..|xs| - 1], tag, k);
    }
  }

  // ---------------------------------------------------------------------------------------
  // calculateMatchScore.

  /** The sum of the weights of the dimensions in dims on which dish and profile agree. */
  function AgreedWeight(dims: seq<Dim>, dish: QuizAttributes, profile: QuizAttributes, w: Weights): nat
  {
    if dims == [] then 0
    else
      AgreedWeight(dims[..|dims| - 1], dish, profile, w)
        + (if Agrees(dims[|dims| - 1], dish, profile) then w(dims[|dims| - 1]) else 0)
  }

  function TotalWeight(dims: seq<Dim>, w: Weights): nat
  {
    if dims == [] then 0 else TotalWeight(dims[..|dims| - 1], w) + w(dims[|dims| - 1])
  }

  lemma TotalWeightSnoc(dims: seq<Dim>, d: Dim, w: Weights)
    ensures TotalWeight(dims + [d], w) == TotalWeight(dims, w) + w(d)
  {
    assert (dims + [d])[..|dims|] == dims;
  }

  /** The full score is the sum of the eight weights. */
  lemma TotalWeightAll(w: Weights)
    ensures TotalWeight(AllDims, w)
         == w(EnergyDim) + w(SocialDim) + w(FlavorDim) + w(AdventureDim)
          + w(TimeDim) + w(SettingDim) + w(TextureDim) + w(CultureDim)
  {
    var d := AllDims;
    assert d[..0] + [d[0]] == d[..1];
    assert d[..1] + [d[1]] == d[..2];
    assert d[..2] + [d[2]] == d[..3];
    assert d[..3] + [d[3]] == d[..4];
    assert d[..4] + [d[4]] == d[..5];
    assert d[..5] + [d[5]] == d[..6];
    assert d[..6] + [d[6]] == d[..7];
    assert d[..7] + [d[7]] == d;
    TotalWeightSnoc(d[..0], d[0], w);
    TotalWeightSnoc(d[..1], d[1], w);
    TotalWeightSnoc(d[..2], d[2], w);
    TotalWeightSnoc(d[..3], d[3], w);
    TotalWeightSnoc(d[..4], d[4], w);
    TotalWeightSnoc(d[..5], d[5], w);
    TotalWeightSnoc(d[..6], d[6], w);
    TotalWeightSnoc(d[..7], d[7], w);
  }

  function MatchScore(dish: QuizAttributes, profile: QuizAttributes, w: Weights): nat
  {
    AgreedWeight(AllDims, dish, profile, w)
  }

  /** The score lies between 0 and the total weight, and with positive weights it reaches the
      total exactly when every dimension agrees. */
  lemma {:induction false} AgreedWeightBounds(dims: seq<Dim>, dish: QuizAttributes, profile: QuizAttributes, w: Weights)
    ensures AgreedWeight(dims, dish, profile, w) <= TotalWeight(dims, w)
    ensures (forall d :: d in dims ==> w(d) > 0)
         ==> (AgreedWeight(dims, dish, profile, w) == TotalWeight(dims, w)
              <==> forall d :: d in dims ==> Agrees(d, dish, profile))
  {
    if dims != [] {
      var init, last := dims[..|dims| - 1], dims[|dims| - 1];
      assert dims == init + [last];
      AgreedWeightBounds(init, dish, profile, w);
      assert forall d :: d in init ==> d in dims;
    }
  }

  /** A dimension that disagrees costs the score at least its weight. */
  lemma {:induction false} DisagreementCosts(dims: seq<Dim>, dish: QuizAttributes, profile: QuizAttributes, w: Weights, d0: Dim)
    requires d0 in dims && !Agrees(d0, dish, profile)
    ensures AgreedWeight(dims, dish, profile, w) + w(d0) <= TotalWeight(dims, w)
  {
    var init, last := dims[..|dims| - 1], dims[|dims| - 1];
    assert dims == init + [last];
    AgreedWeightBounds(init, dish, profile, w);
    if last != d0 {
      assert d0 in init;
      DisagreementCosts(init, dish, profile, w, d0);
    }
  }

  /** The score depends only on the values of the weight table. */
  lemma {:induction false} AgreedWeightExt(dims: seq<Dim>, dish: QuizAttributes, profile: QuizAttributes, w1: Weights, w2: Weights)
    requires forall d :: w1(d) == w2(d)
    ensures AgreedWeight(dims, dish, profile, w1) == AgreedWeight(dims, dish, profile, w2)
    ensures TotalWeight(dims, w1) == TotalWeight(dims, w2)
  {
    if dims != [] {
      AgreedWeightExt(dims[..|dims| - 1], dish, profile, w1, w2);
    }
  }

  /** Equal weight tables select the same dish. */
  lemma BestMatchExt(catalog: seq<QuizAttributes>, profile: QuizAttributes, w1: Weights, w2: Weights, k: int)
    requires forall d :: w1(d) == w2(d)
    requires IsBestMatch(catalog, profile, w1, k)
    ensures IsBestMatch(catalog, profile, w2, k)
  {
    forall x ensures MatchScore(x, profile, w1) == MatchScore(x, profile, w2) {
      AgreedWeightExt(AllDims, x, profile, w1, w2);
    }
  }

  /** The accumulation loop of calculateMatchScore over the eight profile entries. */
  method CalculateMatchScore(dish: QuizAttributes, profile: QuizAttributes, w: Weights) returns (score: nat)
    ensures score == MatchScore(dish, profile, w)
  {
    score := 0;
    var i := 0;
    while i < |AllDims|
      invariant 0 <= i <= |AllDims|
      invariant score == AgreedWeight(AllDims[..i], dish, profile, w)
    {
      var d := AllDims[i];
      assert AllDims[..i + 1][..i] == AllDims[..i];
      if Agrees(d, dish, profile) {
        score := score + w(d);
      }
      i := i + 1;
    }
    assert AllDims[..i] == AllDims;
  }

  // ---------------------------------------------------------------------------------------
  // The best-match loop.

  /** k is what the best-match loop ends with: the first dish of strictly highest positive
      score, or dish 0 when every dish scores 0. */
  ghost predicate IsBestMatch(catalog: seq<QuizAttributes>, profile: QuizAttributes, w: Weights, k: int)
  {
    && 0 <= k < |catalog|
    && (|| (k == 0 && forall j :: 0 <= j < |catalog| ==> MatchScore(catalog[j], profile, w) == 0)
        || (&& MatchScore(catalog[k], profile, w) > 0
            && (forall j :: 0 <= j < |catalog| ==> MatchScore(catalog[j], profile, w) <= MatchScore(catalog[k], profile, w))
            && (forall j :: 0 <= j < k ==> MatchScore(catalog[j], profile, w) < MatchScore(catalog[k], profile, w))))
  }

  method BestMatch(catalog: seq<QuizAttributes>, profile: QuizAttributes, w: Weights) returns (k: nat)
    requires |catalog| > 0
    ensures IsBestMatch(catalog, profile, w, k)
  {
    k := 0;
    var bestScore := 0;
    var i := 0;
    while i < |catalog|
      invariant 0 <= i <= |catalog|
      invariant k < |catalog|
      invariant bestScore == 0 ==> k == 0 && forall j :: 0 <= j < i ==> MatchScore(catalog[j], profile, w) == 0
      invariant bestScore > 0 ==> k < i && bestScore == MatchScore(catalog[k], profile, w)
      invariant forall j :: 0 <= j < i ==> MatchScore(catalog[j], profile, w) <= bestScore
      invariant forall j :: 0 <= j < k ==> MatchScore(catalog[j], profile, w) < bestScore
    {
      var matchScore := CalculateMatchScore(catalog[i], profile, w);
      if matchScore > bestScore {
        bestScore := matchScore;
        k := i;
      }
      i := i + 1;
    }
  }

  /** The loop's outcome is determined: two indices satisfying IsBestMatch are equal. */
  lemma BestMatchUnique(catalog: seq<QuizAttributes>, profile: QuizAttributes, w: Weights, k1: int, k2: int)
    requires IsBestMatch(catalog, profile, w, k1) && IsBestMatch(catalog, profile, w, k2)
    ensures k1 == k2
  {
  }

  /** Two selections over the same catalog and profile with pointwise equal weights pick the
      same dish. */
  lemma BestMatchSame(catalog: seq<QuizAttributes>, p1: QuizAttributes, p2: QuizAttributes,
                      w1: Weights, w2: Weights, k1: int, k2: int)
    requires p1 == p2 && forall d :: w1(d) == w2(d)
    requires IsBestMatch(catalog, p1, w1, k1) && IsBestMatch(catalog, p2, w2, k2)
    ensures k1 == k2
  {
    BestMatchExt(catalog, p1, w1, w2, k1);
    BestMatchUnique(catalog, p1, w2, k1, k2);
  }

  /** A dish equal to the profile scores the total weight, and is the result unless an
      earlier dish also scores the total weight. */
  lemma PerfectMatchWins(catalog: seq<QuizAttributes>, profile: QuizAttributes, w: Weights, j: int, k: int)
    requires forall d :: w(d) > 0
    requires 0 <= j < |catalog| && catalog[j] == profile
    requires IsBestMatch(catalog, profile, w, k)
    ensures k <= j
    ensures MatchScore(catalog[k], profile, w) == TotalWeight(AllDims, w)
    ensures (forall i :: 0 <= i < j ==> MatchScore(catalog[i], profile, w) < TotalWeight(AllDims, w)) ==> k == j
  {
    AgreedWeightBounds(AllDims, catalog[j], profile, w);
    AgreedWeightBounds(AllDims, catalog[k], profile, w);
    assert EnergyDim in AllDims;
    assert Agrees(EnergyDim, catalog[j], profile);
  }

  /** calculateResult up to the dish lookup: tally, reduce, pick the best match. */
  method MatchIndex(keys: TallyKeys, w: Weights, answers: seq<Option<Answer>>, catalog: seq<QuizAttributes>)
    returns (k: nat)
    requires NonEmptyKeys(keys)
    requires forall a :: a in answers ==> InTables(keys, a)
    requires |catalog| > 0
    ensures IsBestMatch(catalog, ProfileOf(keys, answers), w, k)
  {
    var scores := Tally(keys, answers);
    var profile := ReduceProfile(scores);
    k := BestMatch(catalog, profile, w);
  }

  /** A profile that does not depend on answer order gives a result that does not either. */
  lemma MatchIgnoresOrder(keys: TallyKeys, w: Weights, xs: seq<Option<Answer>>, ys: seq<Option<Answer>>,
                          catalog: seq<QuizAttributes>, kx: int, ky: int)
    requires NonEmptyKeys(keys)
    requires multiset(xs) == multiset(ys)
    requires IsBestMatch(catalog, ProfileOf(keys, xs), w, kx)
    requires IsBestMatch(catalog, ProfileOf(keys, ys), w, ky)
    ensures kx == ky
  {
    ScoresPerm(keys, xs, ys);
    BestMatchUnique(catalog, ProfileOf(keys, xs), w, kx, ky);
  }
}
