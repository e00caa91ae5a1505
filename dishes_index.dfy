/** src/data/dishes/index.ts: the merge of the classic pairings into each dish's computed
    list, the construction of the exported `dishes` array, and the lookups over it. The
    catalog `allBaseDishes` is a parameter, and so are the DISH_IDS constants (`ids`). */
module DishIndex {
  import opened Types
  import opened StableSort
  import opened Pairings

  // ---------------------------------------------------------------------------------------
  // The keys the lookups find by.

  function BaseIdOf(d: BaseDish): DishId
  {
    d.id
  }

  function DishIdOfDish(d: Dish): DishId
  {
    d.base.id
  }

  /** With distinct keys, the index of an element is found from its key. */
  lemma FindIndexDistinct<T, K>(s: seq<T>, key: T -> K, i: int)
    requires 0 <= i < |s|
    requires DistinctBy(s, key)
    ensures FindIndex(s, key, key(s[i])) == i
  {
  }

  // ---------------------------------------------------------------------------------------
  // calculateClassicPairingScore and one classic override.

  /** calculateClassicPairingScore: Math.max(85, compatibility). */
  function ClassicPairingScore(dish1: BaseDish, dish2: BaseDish): (r: nat)
    ensures r >= 85 && r >= Compatibility(dish1.attrs, dish2.attrs)
    ensures r == 85 || r == Compatibility(dish1.attrs, dish2.attrs)
    ensures r <= 95
  {
    var c := Compatibility(dish1.attrs, dish2.attrs);
    if c > 85 then c else 85
  }

  /** The record the override writes for the classic partner `partner` of `owner`. */
  function ClassicEntry(ids: Ids, owner: BaseDish, partner: BaseDish): PairedWith
  {
    PairedWith(partner.id, ClassicReason(ids, owner.id, partner.id), ClassicPairingScore(owner, partner))
  }

  /** One iteration of the override loop for `classicId`: skip it when the catalog lacks it,
      otherwise overwrite the existing entry for it in place, or put a new one in front. */
  function ApplyClassic(ids: Ids, owner: BaseDish, all: seq<BaseDish>, pairings: seq<PairedWith>,
                        classicId: DishId): seq<PairedWith>
  {
    var found := FindIndex(all, BaseIdOf, classicId);
    if found < 0 then pairings
    else
      var entry := ClassicEntry(ids, owner, all[found]);
      var existing := FindIndex(pairings, DishIdOf, classicId);
      if existing >= 0 then pairings[existing := entry] else [entry] + pairings
  }

  /** The override loop over a list of classic ids, in order. */
  function ApplyClassics(ids: Ids, owner: BaseDish, all: seq<BaseDish>, pairings: seq<PairedWith>,
                         classicIds: seq<DishId>): seq<PairedWith>
  {
    if classicIds == [] then pairings
    else
      ApplyClassic(ids, owner, all,
                   ApplyClassics(ids, owner, all, pairings, classicIds[..|classicIds| - 1]),
                   classicIds[|classicIds| - 1])
  }

  /** The classic ids of a dish: `classicPairings[dish.id]`, or none. */
  function ClassicIdsOf(ids: Ids, id: DishId): seq<DishId>
  {
    var cp := ClassicPairings(ids);
    if id in cp then cp[id] else []
  }

  /** `pairingMap.get(dish.id) || []`. */
  function ComputedFor(pairingMap: map<DishId, seq<PairedWith>>, id: DishId): seq<PairedWith>
  {
    if id in pairingMap then pairingMap[id] else []
  }

  /** The list addPairingsToDish ends with: when the dish has classic partners, the computed
      list with the overrides applied and re-sorted by score; otherwise the computed list. */
  function MergedPairings(ids: Ids, owner: BaseDish, all: seq<BaseDish>,
                          pairingMap: map<DishId, seq<PairedWith>>): seq<PairedWith>
  {
    var classicIds := ClassicIdsOf(ids, owner.id);
    var pairings := ComputedFor(pairingMap, owner.id);
    if |classicIds| > 0 then SortDesc(ApplyClassics(ids, owner, all, pairings, classicIds), ScoreOf)
    else pairings
  }

  /** The dish addPairingsToDish returns: the base dish, with `pairedWith` undefined exactly
      when the merged list is empty. */
  function WithPairings(ids: Ids, owner: BaseDish, all: seq<BaseDish>,
                        pairingMap: map<DishId, seq<PairedWith>>): (d: Dish)
    ensures d.base == owner
    ensures d.pairedWith.None? <==> MergedPairings(ids, owner, all, pairingMap) == []
    ensures d.pairedWith.Some? ==> d.pairedWith.value == MergedPairings(ids, owner, all, pairingMap)
  {
    var merged := MergedPairings(ids, owner, all, pairingMap);
    Dish(owner, if |merged| > 0 then Some(merged) else None)
  }

  /** The override loop of addPairingsToDish: for each classic id the catalog has, replace the
      entry with that id in place, or unshift a new one. */
  method OverrideClassics(ids: Ids, dish: BaseDish, all: seq<BaseDish>, computed: seq<PairedWith>,
                          classicIds: seq<DishId>) returns (pairings: seq<PairedWith>)
    ensures pairings == ApplyClassics(ids, dish, all, computed, classicIds)
  {
    pairings := computed;
    for k := 0 to |classicIds|
      invariant pairings == ApplyClassics(ids, dish, all, computed, classicIds[..k])
    {
      assert classicIds[..k + 1][..k] == classicIds[..k];
      var classicId := classicIds[k];
      var existingIndex := FindIndex(pairings, DishIdOf, classicId);
      var dishIndex := FindIndex(all, BaseIdOf, classicId);
      if dishIndex >= 0 {
        var dishData := all[dishIndex];
        var reason := ClassicReason(ids, dish.id, classicId);
        var score := ClassicPairingScore(dish, dishData);
        if existingIndex >= 0 {
          pairings := pairings[existingIndex := PairedWith(classicId, reason, score)];
        } else {
          pairings := [PairedWith(classicId, reason, score)] + pairings;
        }
      }
    }
    assert classicIds[..|classicIds|] == classicIds;
  }

  /** addPairingsToDish: the list is edited in place (replace at an index or unshift), one
      classic id at a time, then sorted by score. */
  method AddPairingsToDish(dish: BaseDish, pairingMap: map<DishId, seq<PairedWith>>,
                           all: seq<BaseDish>, ids: Ids) returns (result: Dish)
    ensures result == WithPairings(ids, dish, all, pairingMap)
  {
    var pairings := if dish.id in pairingMap then pairingMap[dish.id] else [];
    var classicPairings := ClassicPairings(ids);
    if dish.id in classicPairings && |classicPairings[dish.id]| > 0 {
      pairings := OverrideClassics(ids, dish, all, pairings, classicPairings[dish.id]);
      pairings := SortDesc(pairings, ScoreOf);
    }
    result := Dish(dish, if |pairings| > 0 then Some(pairings) else None);
  }

  // ---------------------------------------------------------------------------------------
  // What one override and the override loop do to the list.

  /** Some entry of the list is for id. */
  ghost predicate Lists(pairings: seq<PairedWith>, id: DishId)
  {
    exists q :: q in pairings && q.dishId == id
  }

  /** Overwriting the entry at k with a record for the same id keeps the ids distinct, leaves
      the entries of the other ids alone, and leaves e as the only entry for its id. */
  lemma ReplaceEntry(pairings: seq<PairedWith>, k: int, e: PairedWith)
    requires DistinctBy(pairings, DishIdOf)
    requires 0 <= k < |pairings| && pairings[k].dishId == e.dishId
    ensures var r := pairings[k := e];
      && DistinctBy(r, DishIdOf)
      && (forall q: PairedWith :: q.dishId != e.dishId ==> (q in r <==> q in pairings))
      && (forall q :: q in r && q.dishId == e.dishId ==> q == e)
      && e in r
  {
    var r := pairings[k := e];
    forall q: PairedWith | q.dishId != e.dishId ensures q in r <==> q in pairings {
      if q in pairings {
        var m :| 0 <= m < |pairings| && pairings[m] == q;
        assert r[m] == q;
      }
      if q in r {
        var m :| 0 <= m < |r| && r[m] == q;
        assert pairings[m] == q;
      }
    }
    assert forall m :: 0 <= m < |r| && m != k ==> r[m].dishId != e.dishId;
    assert r[k] == e;
  }

  /** Putting a record for an id the list lacks in front keeps the ids distinct, leaves the
      other entries alone, and leaves e as the only entry for its id. */
  lemma PrependEntry(pairings: seq<PairedWith>, e: PairedWith)
    requires DistinctBy(pairings, DishIdOf)
    requires forall q :: q in pairings ==> q.dishId != e.dishId
    ensures var r := [e] + pairings;
      && DistinctBy(r, DishIdOf)
      && (forall q: PairedWith :: q.dishId != e.dishId ==> (q in r <==> q in pairings))
      && (forall q :: q in r && q.dishId == e.dishId ==> q == e)
  {
    var r := [e] + pairings;
    assert forall m :: 1 <= m < |r| ==> r[m] == pairings[m - 1] && r[m] in pairings;
    forall i, j | 0 <= i < j < |r| ensures r[i].dishId != r[j].dishId {
      if i > 0 {
        assert r[i] == pairings[i - 1];
      }
    }
  }

  /** One override keeps the ids distinct, leaves every other id's entries alone, and, when the
      catalog has the partner, leaves exactly its classic record for that id: in place of the
      old entry (same length) or in front (one longer). */
  lemma ApplyClassicShape(ids: Ids, owner: BaseDish, all: seq<BaseDish>, pairings: seq<PairedWith>, c: DishId)
    requires DistinctBy(pairings, DishIdOf)
    ensures var r := ApplyClassic(ids, owner, all, pairings, c);
      && DistinctBy(r, DishIdOf)
      && (forall q: PairedWith :: q.dishId != c ==> (q in r <==> q in pairings))
      && (FindIndex(all, BaseIdOf, c) < 0 ==> r == pairings)
      && (FindIndex(all, BaseIdOf, c) >= 0 ==>
            && (forall q :: q in r && q.dishId == c ==> q == ClassicEntry(ids, owner, all[FindIndex(all, BaseIdOf, c)]))
            && ClassicEntry(ids, owner, all[FindIndex(all, BaseIdOf, c)]) in r
            && |r| == if Lists(pairings, c) then |pairings| else |pairings| + 1)
  {
    var found := FindIndex(all, BaseIdOf, c);
    if found >= 0 {
      var entry := ClassicEntry(ids, owner, all[found]);
      var existing := FindIndex(pairings, DishIdOf, c);
      if existing >= 0 {
        ReplaceEntry(pairings, existing, entry);
        assert Lists(pairings, c) by { assert pairings[existing] in pairings; }
      } else {
        assert forall q :: q in pairings ==> q.dishId != c;
        PrependEntry(pairings, entry);
      }
    }
  }

  /** The override loop keeps the ids distinct, leaves the entries of non-classic ids alone,
      and ends with exactly the classic record for every classic id the catalog has. */
  lemma {:induction false} ApplyClassicsShape(ids: Ids, owner: BaseDish, all: seq<BaseDish>,
                                              pairings: seq<PairedWith>, cs: seq<DishId>)
    requires DistinctBy(pairings, DishIdOf)
    ensures var r := ApplyClassics(ids, owner, all, pairings, cs);
      && DistinctBy(r, DishIdOf)
      && (forall q: PairedWith :: q.dishId !in cs || FindIndex(all, BaseIdOf, q.dishId) < 0
            ==> (q in r <==> q in pairings))
      && (forall q :: q in r && q.dishId in cs && FindIndex(all, BaseIdOf, q.dishId) >= 0 ==>
            q == ClassicEntry(ids, owner, all[FindIndex(all, BaseIdOf, q.dishId)]))
      && (forall c :: c in cs && FindIndex(all, BaseIdOf, c) >= 0 ==>
            ClassicEntry(ids, owner, all[FindIndex(all, BaseIdOf, c)]) in r)
  {
    if cs == [] {
    } else {
      var init, c := cs[..|cs| - 1], cs[|cs| - 1];
      assert cs == init + [c];
      ApplyClassicsShape(ids, owner, all, pairings, init);
      var mid := ApplyClassics(ids, owner, all, pairings, init);
      ApplyClassicShape(ids, owner, all, mid, c);
      var r := ApplyClassic(ids, owner, all, mid, c);
      forall q | q in r && q.dishId in cs && FindIndex(all, BaseIdOf, q.dishId) >= 0
        ensures q == ClassicEntry(ids, owner, all[FindIndex(all, BaseIdOf, q.dishId)])
      {
        if q.dishId != c {
          assert q in mid && q.dishId in init;
        }
      }
      forall q: PairedWith | q.dishId !in cs || FindIndex(all, BaseIdOf, q.dishId) < 0
        ensures q in r <==> q in pairings
      {
        assert q.dishId !in init || FindIndex(all, BaseIdOf, q.dishId) < 0;
      }
      forall c' | c' in cs && FindIndex(all, BaseIdOf, c') >= 0
        ensures ClassicEntry(ids, owner, all[FindIndex(all, BaseIdOf, c')]) in r
      {
        var e := ClassicEntry(ids, owner, all[FindIndex(all, BaseIdOf, c')]);
        assert e.dishId == c';
        if c' != c {
          assert c' in init;
        }
      }
    }
  }

  // ---------------------------------------------------------------------------------------
  // The merged list over the real pairing map.

  /** No two catalog dishes share an id. */
  ghost predicate UniqueIds(all: seq<BaseDish>)
  {
    forall i, j :: 0 <= i < j < |all| ==> all[i].id != all[j].id
  }

  /** Dish i's computed list, looked up in computeAllPairings(allBaseDishes): sorted by score,
      no partner twice, never the dish itself, only catalog dishes. */
  lemma ComputedShape(all: seq<BaseDish>, i: int)
    requires UniqueIds(all)
    requires 0 <= i < |all|
    ensures var computed := ComputedFor(PairingMap(all), all[i].id);
      && computed == PairingsFor(all[i], all)
      && NonIncreasing(computed, ScoreOf)
      && DistinctBy(computed, DishIdOf)
      && (forall q :: q in computed ==> q.dishId != all[i].id && FindIndex(all, BaseIdOf, q.dishId) >= 0)
  {
    var owner := all[i];
    PairingMapLookup(all, i);
    PairingsShape(owner, all);
    PairingsDistinct(owner, all);
    PairingsInCatalog(owner, all);
  }

  /** Every computed partner is a catalog dish. */
  lemma PairingsInCatalog(owner: BaseDish, all: seq<BaseDish>)
    ensures forall q :: q in PairingsFor(owner, all) ==> FindIndex(all, BaseIdOf, q.dishId) >= 0
  {
    forall q | q in PairingsFor(owner, all) ensures FindIndex(all, BaseIdOf, q.dishId) >= 0 {
      PairingsMembership(owner, all, q.dishId);
      var o :| o in all && o.id == q.dishId && q.dishId != owner.id && Compatibility(owner.attrs, o.attrs) >= 70;
      var n :| 0 <= n < |all| && all[n] == o;
      assert BaseIdOf(all[n]) == q.dishId;
    }
  }

  /** What the merge promises of the final list m, given the computed list and the classic ids
      cs of owner: sorted by score (highest first), no partner twice, never the owner itself,
      only catalog dishes, exactly the classic record of every classic partner the catalog
      has, and every other id's computed entry unchanged. */
  ghost predicate MergeProperties(ids: Ids, owner: BaseDish, all: seq<BaseDish>, computed: seq<PairedWith>,
                                  cs: seq<DishId>, m: seq<PairedWith>)
  {
    && NonIncreasing(m, ScoreOf)
    && DistinctBy(m, DishIdOf)
    && (forall q :: q in m ==> q.dishId != owner.id && FindIndex(all, BaseIdOf, q.dishId) >= 0)
    && (forall c :: c in cs && FindIndex(all, BaseIdOf, c) >= 0 ==>
          ClassicEntry(ids, owner, all[FindIndex(all, BaseIdOf, c)]) in m)
    && (forall q :: q in m && q.dishId in cs ==>
          q == ClassicEntry(ids, owner, all[FindIndex(all, BaseIdOf, q.dishId)]))
    && (forall q: PairedWith :: q.dishId !in cs ==> (q in m <==> q in computed))
  }

  /** Overriding then sorting a sorted-free list of catalog partners that avoids the owner:
      the result is sorted, keeps every property of the input, and holds the classic record of
      every classic partner the catalog has. */
  lemma SortedOverridesShape(ids: Ids, owner: BaseDish, all: seq<BaseDish>, computed: seq<PairedWith>, cs: seq<DishId>)
    requires DistinctBy(computed, DishIdOf)
    requires forall q :: q in computed ==> q.dishId != owner.id && FindIndex(all, BaseIdOf, q.dishId) >= 0
    requires owner.id !in cs
    ensures MergeProperties(ids, owner, all, computed, cs, SortDesc(ApplyClassics(ids, owner, all, computed, cs), ScoreOf))
  {
    var r := ApplyClassics(ids, owner, all, computed, cs);
    ApplyClassicsShape(ids, owner, all, computed, cs);
    SortMembers(r, ScoreOf);
    SortSorted(r, ScoreOf);
    SortDistinct(r, ScoreOf, DishIdOf);
    forall q | q in r ensures q.dishId != owner.id && FindIndex(all, BaseIdOf, q.dishId) >= 0 {
      if q.dishId !in cs || FindIndex(all, BaseIdOf, q.dishId) < 0 {
        assert q in computed;
      }
    }
  }

  /** Dish i's merged list, built from computeAllPairings(allBaseDishes), has every property
      of MergeProperties. */
  lemma MergedShape(ids: Ids, all: seq<BaseDish>, i: int)
    requires Injective(ids) && UniqueIds(all)
    requires 0 <= i < |all|
    ensures MergeProperties(ids, all[i], all, PairingsFor(all[i], all), ClassicIdsOf(ids, all[i].id),
                            MergedPairings(ids, all[i], all, PairingMap(all)))
  {
    var owner := all[i];
    var cs := ClassicIdsOf(ids, owner.id);
    ComputedShape(all, i);
    if owner.id in ClassicPairings(ids) {
      ClassicNoSelfPair(ids, owner.id);
    }
    if |cs| > 0 {
      SortedOverridesShape(ids, owner, all, PairingsFor(owner, all), cs);
    } else {
      assert MergedPairings(ids, owner, all, PairingMap(all)) == PairingsFor(owner, all);
    }
  }

  /** A dish without classic partners keeps its computed list as it is. */
  lemma MergedWithoutClassics(ids: Ids, all: seq<BaseDish>, i: int)
    requires UniqueIds(all)
    requires 0 <= i < |all|
    requires ClassicIdsOf(ids, all[i].id) == []
    ensures MergedPairings(ids, all[i], all, PairingMap(all)) == PairingsFor(all[i], all)
  {
    PairingMapLookup(all, i);
  }

  // ---------------------------------------------------------------------------------------
  // The exported `dishes` array.

  /** `allBaseDishes.map((dish) => addPairingsToDish(dish, computeAllPairings(allBaseDishes)))`:
      one dish per catalog entry, same order, same ids and attributes. */
  function DishesOf(all: seq<BaseDish>, ids: Ids): (ds: seq<Dish>)
    ensures |ds| == |all|
    ensures forall i :: 0 <= i < |all| ==> ds[i].base == all[i]
    ensures forall i :: 0 <= i < |all| ==> ds[i] == WithPairings(ids, all[i], all, PairingMap(all))
  {
    seq(|all|, i requires 0 <= i < |all| => WithPairings(ids, all[i], all, PairingMap(all)))
  }

  /** The construction of `dishes`: the map callback recomputes all pairings for every dish. */
  method BuildDishes(all: seq<BaseDish>, ids: Ids) returns (dishes: seq<Dish>)
    ensures dishes == DishesOf(all, ids)
  {
    ghost var target := DishesOf(all, ids);
    dishes := [];
    for i := 0 to |all|
      invariant dishes == target[..i]
    {
      var pairingMap := ComputeAllPairings(all);
      var dish := AddPairingsToDish(all[i], pairingMap, all, ids);
      assert dish == target[i];
      assert target[..i + 1] == target[..i] + [target[i]];
      dishes := dishes + [dish];
    }
    assert target[..|all|] == target;
  }

  // ---------------------------------------------------------------------------------------
  // The lookups.

  /** getDishById: the first dish with the id, or undefined. */
  function GetDishById(dishes: seq<Dish>, id: DishId): (r: Option<Dish>)
    ensures r.None? <==> forall i :: 0 <= i < |dishes| ==> dishes[i].base.id != id
    ensures r.Some? ==> exists i :: 0 <= i < |dishes| && dishes[i] == r.value && r.value.base.id == id
                                     && forall j :: 0 <= j < i ==> dishes[j].base.id != id
  {
    Find(dishes, DishIdOfDish, id)
  }

  /** `pairings.map((p) => getDishById(p.dishId)).filter((d) => d !== undefined)`: a dish is
      resolved exactly when some pairing names it, so pairings with unknown ids are dropped. */
  function ResolvePartners(dishes: seq<Dish>, pairings: seq<PairedWith>): (r: seq<Dish>)
    ensures |r| <= |pairings|
    ensures forall d :: d in r ==> d in dishes
    ensures forall d :: d in r <==> exists p :: p in pairings && GetDishById(dishes, p.dishId) == Some(d)
  {
    if pairings == [] then []
    else
      var rest := ResolvePartners(dishes, pairings[1..]);
      assert forall p :: p in pairings <==> p == pairings[0] || p in pairings[1..];
      match GetDishById(dishes, pairings[0].dishId)
      case None => rest
      case Some(d) => [d] + rest
  }

  /** The pairings the lookups read: `dish.pairedWith`, or none when the dish is unknown or
      its field is undefined (`!dish?.pairedWith`). */
  function PairingsOf(dishes: seq<Dish>, dishId: DishId): seq<PairedWith>
  {
    match GetDishById(dishes, dishId)
    case None => []
    case Some(dish) => if dish.pairedWith.None? then [] else dish.pairedWith.value
  }

  /** getPairedDishes: the dishes named by the target's pairings, in order, unknown ids
      dropped; nothing for an unknown target or one without pairings. */
  function GetPairedDishes(dishes: seq<Dish>, dishId: DishId): (r: seq<Dish>)
    ensures GetDishById(dishes, dishId).None? ==> r == []
    ensures GetDishById(dishes, dishId).Some? && GetDishById(dishes, dishId).value.pairedWith.None? ==> r == []
    ensures |r| <= |PairingsOf(dishes, dishId)|
    ensures forall d :: d in r ==> d in dishes
    ensures forall d :: d in r <==>
              exists p :: p in PairingsOf(dishes, dishId) && GetDishById(dishes, p.dishId) == Some(d)
  {
    match GetDishById(dishes, dishId)
    case None => []
    case Some(dish) =>
      if dish.pairedWith.None? then [] else ResolvePartners(dishes, dish.pairedWith.value)
  }

  /** The pair getBestPairing returns. */
  datatype BestPairing = BestPairing(dish: Dish, pairing: PairedWith)

  /** getBestPairing: the head of the target's pairings with its dish; null when the target is
      unknown, has no pairings, or its head names an unknown dish. */
  function GetBestPairing(dishes: seq<Dish>, dishId: DishId): (r: Option<BestPairing>)
    ensures r.Some? <==>
      && GetDishById(dishes, dishId).Some?
      && GetDishById(dishes, dishId).value.pairedWith.Some?
      && |GetDishById(dishes, dishId).value.pairedWith.value| > 0
      && GetDishById(dishes, GetDishById(dishes, dishId).value.pairedWith.value[0].dishId).Some?
    ensures r.Some? ==>
      && r.value.pairing == GetDishById(dishes, dishId).value.pairedWith.value[0]
      && r.value.dish.base.id == r.value.pairing.dishId
      && r.value.dish in dishes
  {
    match GetDishById(dishes, dishId)
    case None => None
    case Some(dish) =>
      if dish.pairedWith.None? || |dish.pairedWith.value| == 0 then None
      else
        var bestPairing := dish.pairedWith.value[0];
        match GetDishById(dishes, bestPairing.dishId)
        case None => None
        case Some(pairedDish) => Some(BestPairing(pairedDish, bestPairing))
  }

  /** arePaired: whether the first dish's pairings name the second. */
  function ArePaired(dishes: seq<Dish>, dishId1: DishId, dishId2: DishId): (r: bool)
    ensures r <==> GetDishById(dishes, dishId1).Some? && GetDishById(dishes, dishId1).value.pairedWith.Some?
                   && exists p :: p in GetDishById(dishes, dishId1).value.pairedWith.value && p.dishId == dishId2
  {
    match GetDishById(dishes, dishId1)
    case None => false
    case Some(dish1) =>
      if dish1.pairedWith.None? then false
      else exists p :: p in dish1.pairedWith.value && p.dishId == dishId2
  }

  /** getPairingInfo: the first of the first dish's pairings that names the second, or null. */
  function GetPairingInfo(dishes: seq<Dish>, dishId1: DishId, dishId2: DishId): (r: Option<PairedWith>)
    ensures r.None? <==> forall p :: p in PairingsOf(dishes, dishId1) ==> p.dishId != dishId2
    ensures r.Some? ==> r.value.dishId == dishId2
    ensures r.Some? ==> GetDishById(dishes, dishId1).Some? && GetDishById(dishes, dishId1).value.pairedWith.Some?
    ensures r.Some? ==> var pw := PairingsOf(dishes, dishId1);
              exists k :: 0 <= k < |pw| && pw[k] == r.value && forall j :: 0 <= j < k ==> pw[j].dishId != dishId2
  {
    match GetDishById(dishes, dishId1)
    case None => None
    case Some(dish1) =>
      if dish1.pairedWith.None? then None
      else Find(dish1.pairedWith.value, DishIdOf, dishId2)
  }

  /** Two dishes are paired exactly when there is pairing info for them. */
  lemma ArePairedIffInfo(dishes: seq<Dish>, dishId1: DishId, dishId2: DishId)
    ensures ArePaired(dishes, dishId1, dishId2) <==> GetPairingInfo(dishes, dishId1, dishId2).Some?
  {
    if ArePaired(dishes, dishId1, dishId2) {
      var ps := GetDishById(dishes, dishId1).value.pairedWith.value;
      var p :| p in ps && p.dishId == dishId2;
      var m :| 0 <= m < |ps| && ps[m] == p;
      assert FindIndex(ps, DishIdOf, dishId2) >= 0;
    }
  }

  // ---------------------------------------------------------------------------------------
  // Lookup properties.

  /** Resolving partners is done entry by entry, keeping order. */
  lemma {:induction false} ResolvePartnersConcat(dishes: seq<Dish>, a: seq<PairedWith>, b: seq<PairedWith>)
    ensures ResolvePartners(dishes, a + b) == ResolvePartners(dishes, a) + ResolvePartners(dishes, b)
  {
    if a == [] {
      assert a + b == b;
    } else {
      assert (a + b)[1..] == a[1..] + b;
      ResolvePartnersConcat(dishes, a[1..], b);
    }
  }

  /** One pairing in the middle of a list contributes its dish in place when its id is known,
      and nothing when it is not; the entries around it resolve as they would alone. */
  lemma ResolvePartnersEntry(dishes: seq<Dish>, a: seq<PairedWith>, p: PairedWith, b: seq<PairedWith>)
    ensures GetDishById(dishes, p.dishId).None? ==>
              ResolvePartners(dishes, a + [p] + b) == ResolvePartners(dishes, a + b)
    ensures GetDishById(dishes, p.dishId).Some? ==>
              ResolvePartners(dishes, a + [p] + b)
              == ResolvePartners(dishes, a) + [GetDishById(dishes, p.dishId).value] + ResolvePartners(dishes, b)
  {
    ResolvePartnersConcat(dishes, a + [p], b);
    ResolvePartnersConcat(dishes, a, [p]);
    ResolvePartnersConcat(dishes, a, b);
    assert [p][1..] == [];
    assert ResolvePartners(dishes, [p][1..]) == [];
    var single := ResolvePartners(dishes, [p]);
    if GetDishById(dishes, p.dishId).None? {
      assert single == [];
      assert ResolvePartners(dishes, a) + single == ResolvePartners(dishes, a);
    } else {
      assert single == [GetDishById(dishes, p.dishId).value];
    }
  }

  /** When every entry names a known dish, nothing is dropped and entry k yields its dish. */
  lemma {:induction false} ResolvePartnersComplete(dishes: seq<Dish>, pairings: seq<PairedWith>)
    requires forall p :: p in pairings ==> GetDishById(dishes, p.dishId).Some?
    ensures |ResolvePartners(dishes, pairings)| == |pairings|
    ensures forall k :: 0 <= k < |pairings| ==>
              ResolvePartners(dishes, pairings)[k] == GetDishById(dishes, pairings[k].dishId).value
  {
    if pairings != [] {
      assert pairings[0] in pairings;
      assert forall p :: p in pairings[1..] ==> p in pairings;
      ResolvePartnersComplete(dishes, pairings[1..]);
      var r := ResolvePartners(dishes, pairings);
      forall k | 1 <= k < |pairings|
        ensures r[k] == GetDishById(dishes, pairings[k].dishId).value
      {
        assert pairings[1..][k - 1] == pairings[k];
      }
    }
  }

  /** A dish whose pairings all name known dishes has exactly those dishes as its paired
      dishes, in the same order. */
  lemma ResolvedInOrder(dishes: seq<Dish>, id: DishId, m: seq<PairedWith>)
    requires GetDishById(dishes, id).Some?
    requires GetDishById(dishes, id).value.pairedWith == (if m == [] then None else Some(m))
    requires forall p :: p in m ==> GetDishById(dishes, p.dishId).Some?
    ensures |GetPairedDishes(dishes, id)| == |m|
    ensures forall k :: 0 <= k < |m| ==> GetPairedDishes(dishes, id)[k].base.id == m[k].dishId
  {
    if m != [] {
      ResolvePartnersComplete(dishes, m);
    }
  }

  /** Looking an id up among dishes that carry the catalog's ids in the catalog's order finds
      the dish at the catalog index of the id. */
  lemma {:induction false} LookupByCatalogIndex(ds: seq<Dish>, all: seq<BaseDish>, id: DishId)
    requires |ds| == |all|
    requires forall i :: 0 <= i < |all| ==> ds[i].base.id == all[i].id
    ensures FindIndex(ds, DishIdOfDish, id) == FindIndex(all, BaseIdOf, id)
  {
    if all != [] && all[0].id != id {
      LookupByCatalogIndex(ds[1..], all[1..], id);
    }
  }

  /** In the built array, every catalog id finds its own dish. */
  lemma BuiltLookup(all: seq<BaseDish>, ids: Ids, id: DishId)
    ensures GetDishById(DishesOf(all, ids), id).Some? <==> FindIndex(all, BaseIdOf, id) >= 0
    ensures FindIndex(all, BaseIdOf, id) >= 0 ==>
              GetDishById(DishesOf(all, ids), id).value == DishesOf(all, ids)[FindIndex(all, BaseIdOf, id)]
  {
    var ds := DishesOf(all, ids);
    assert forall i :: 0 <= i < |all| ==> ds[i].base == all[i];
    LookupByCatalogIndex(ds, all, id);
  }

  /** For a catalog dish of the built array: its paired dishes are exactly its merged list,
      resolved one for one (every partner is a catalog dish); its best pairing is the head of
      that list, present exactly when the list is non-empty; and it is paired with each of its
      classic partners that the catalog has, with the classic record. */
  lemma BuiltPairings(all: seq<BaseDish>, ids: Ids, i: int)
    requires Injective(ids) && UniqueIds(all)
    requires 0 <= i < |all|
    ensures var ds := DishesOf(all, ids);
      var m := MergedPairings(ids, all[i], all, PairingMap(all));
      && |GetPairedDishes(ds, all[i].id)| == |m|
      && (forall k :: 0 <= k < |m| ==> GetPairedDishes(ds, all[i].id)[k].base.id == m[k].dishId)
      && (GetBestPairing(ds, all[i].id).Some? <==> |m| > 0)
      && (|m| > 0 ==> GetBestPairing(ds, all[i].id).value.pairing == m[0])
      && (forall c :: c in ClassicIdsOf(ids, all[i].id) && FindIndex(all, BaseIdOf, c) >= 0 ==>
            && ArePaired(ds, all[i].id, c)
            && GetPairingInfo(ds, all[i].id, c)
               == Some(ClassicEntry(ids, all[i], all[FindIndex(all, BaseIdOf, c)])))
  {
    var ds := DishesOf(all, ids);
    var owner := all[i];
    var m := MergedPairings(ids, owner, all, PairingMap(all));
    FindIndexDistinct(all, BaseIdOf, i);
    BuiltLookup(all, ids, owner.id);
    assert GetDishById(ds, owner.id) == Some(WithPairings(ids, owner, all, PairingMap(all)));
    MergedShape(ids, all, i);
    forall p | p in m ensures GetDishById(ds, p.dishId).Some? {
      BuiltLookup(all, ids, p.dishId);
    }
    ResolvedInOrder(ds, owner.id, m);
    if |m| > 0 {
      assert m[0] in m;
    }
    forall c | c in ClassicIdsOf(ids, owner.id) && FindIndex(all, BaseIdOf, c) >= 0
      ensures ArePaired(ds, owner.id, c)
      ensures GetPairingInfo(ds, owner.id, c) == Some(ClassicEntry(ids, owner, all[FindIndex(all, BaseIdOf, c)]))
    {
      var e := ClassicEntry(ids, owner, all[FindIndex(all, BaseIdOf, c)]);
      assert e in m && e.dishId == c;
      var n :| 0 <= n < |m| && m[n] == e;
      FindIndexDistinct(m, DishIdOf, n);
    }
  }
}
