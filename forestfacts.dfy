/** What the whole reconciliation of one forest achieves: the woody-plant
    loop of importPlayerData, on top of the dweller-level facts. */
module ForestFacts {
  import opened Options
  import opened Dto
  import opened GameTypes
  import opened Matching
  import opened Reconcile
  import opened PassFacts

  /** One turn of the woody-plant loop, spelled out through the lookup it makes. */
  lemma PlantStepFacts(catalog: seq<Blueprint>, p: Pass, dto: WoodyPlantCardDto)
    ensures var found := FindWoodyPlantOfDto(p.deck.woodyPlants, dto, p.woodyPlants, catalog, p.nextId);
      var q := PlantStep(catalog, p, dto);
      (found.card.None? ==> q == p.(unavailableWoodyPlants := p.unavailableWoodyPlants + [dto]))
      && (found.card.Some? ==>
            var (r, w') := PlaceDwellers(p.(nextId := found.nextId), found.card.value, dto.dwellers);
            q == r.(woodyPlants := r.woodyPlants + [w'],
                    deck := r.deck.(woodyPlants := WithoutIds(r.deck.woodyPlants, {w'.id}, IdOfWoodyPlant))))
  {
  }

  /** The woody-plant loop only extends what it records, leaves the caves
      alone and never hands an id back. */
  lemma PlantStepFrame(catalog: seq<Blueprint>, p: Pass, dto: WoodyPlantCardDto)
    ensures var q := PlantStep(catalog, p, dto);
      q.deck.caves == p.deck.caves && p.nextId <= q.nextId
      && p.woodyPlants <= q.woodyPlants && p.dwellers <= q.dwellers
      && p.unavailableWoodyPlants <= q.unavailableWoodyPlants && p.unavailableDwellers <= q.unavailableDwellers
  {
    PlantStepFacts(catalog, p, dto);
    var found := FindWoodyPlantOfDto(p.deck.woodyPlants, dto, p.woodyPlants, catalog, p.nextId);
    if found.card.Some? {
      PlaceDwellersFrame(p.(nextId := found.nextId), found.card.value, dto.dwellers);
    }
  }

  lemma {:induction false} ReconcileForestFrame(catalog: seq<Blueprint>, p: Pass, dtos: seq<WoodyPlantCardDto>)
    ensures var q := ReconcileForest(catalog, p, dtos);
      q.deck.caves == p.deck.caves && p.nextId <= q.nextId
      && p.woodyPlants <= q.woodyPlants && p.dwellers <= q.dwellers
      && p.unavailableWoodyPlants <= q.unavailableWoodyPlants && p.unavailableDwellers <= q.unavailableDwellers
    decreases |dtos|
  {
    if dtos != [] {
      PlantStepFrame(catalog, p, dtos[0]);
      ReconcileForestFrame(catalog, PlantStep(catalog, p, dtos[0]), dtos[1..]);
    }
  }

  /** Every card of `pool` has an id below `nextId`: ids minted from
      `nextId` on are fresh. */
  predicate IdsBelow(pool: seq<WoodyPlantCard>, nextId: nat) {
    forall c :: c in pool ==> c.id < nextId
  }

  /** Pool ownership at woody-plant level, against the pool `pool0` and the
      id supply `nextId0` the pass started from: the deck's pool is `pool0`
      without exactly the woody plants found so far, each of which is either
      a card of `pool0` or was minted from the ids handed out since, and no
      id was found twice. */
  predicate PlantPoolKept(pool0: seq<WoodyPlantCard>, nextId0: nat, p: Pass) {
    p.deck.woodyPlants == WithoutIds(pool0, IdsOf(p.woodyPlants, IdOfWoodyPlant), IdOfWoodyPlant)
    && nextId0 <= p.nextId
    && (forall w :: w in p.woodyPlants ==> w.id in IdsOf(pool0, IdOfWoodyPlant) || nextId0 <= w.id < p.nextId)
    && DistinctIds(p.woodyPlants, IdOfWoodyPlant)
  }

  /** Both pools owned, and the caves untouched. */
  predicate PoolsKept(deck0: Deck, nextId0: nat, p: Pass) {
    DwellerPoolKept(deck0.dwellers, p) && PlantPoolKept(deck0.woodyPlants, nextId0, p)
    && p.deck.caves == deck0.caves
  }

  lemma StartPassKeepsPools(deck: Deck, nextId: nat)
    ensures PoolsKept(deck, nextId, StartPass(deck, nextId))
  {
    StartPassKeepsDwellerPool(deck, nextId);
    WithoutNothing(deck.woodyPlants, IdOfWoodyPlant);
    assert IdsOf([], IdOfWoodyPlant) == {};
  }

  /** The dweller loop run for a found woody plant keeps the woody-plant side. */
  lemma PlaceDwellersKeepsPlantPool(pool0: seq<WoodyPlantCard>, nextId0: nat, p: Pass, w: WoodyPlantCard,
                                    dtos: seq<DwellerCardDto>)
    requires PlantPoolKept(pool0, nextId0, p)
    ensures PlantPoolKept(pool0, nextId0, PlaceDwellers(p, w, dtos).0)
  {
    PlaceDwellersFrame(p, w, dtos);
    var q := PlaceDwellers(p, w, dtos).0;
    assert q.woodyPlants == p.woodyPlants && q.nextId == p.nextId && q.deck.woodyPlants == p.deck.woodyPlants;
  }

  /** Appending a woody plant `w'` whose id is new to the found ones. */
  lemma AppendPlantKeeps(pool0: seq<WoodyPlantCard>, nextId0: nat, r: Pass, w': WoodyPlantCard)
    requires PlantPoolKept(pool0, nextId0, r)
    requires w'.id in IdsOf(pool0, IdOfWoodyPlant) || nextId0 <= w'.id < r.nextId
    requires w'.id !in IdsOf(r.woodyPlants, IdOfWoodyPlant)
    ensures PlantPoolKept(pool0, nextId0,
              r.(woodyPlants := r.woodyPlants + [w'],
                 deck := r.deck.(woodyPlants := WithoutIds(r.deck.woodyPlants, {w'.id}, IdOfWoodyPlant))))
  {
    TakeOne(pool0, r.woodyPlants, w', IdOfWoodyPlant);
    DistinctIdsSnoc(r.woodyPlants, w', IdOfWoodyPlant);
    forall x | x in r.woodyPlants + [w']
      ensures x.id in IdsOf(pool0, IdOfWoodyPlant) || nextId0 <= x.id < r.nextId
    {
      if x != w' {
        assert x in r.woodyPlants;
      }
    }
  }

  /** The id the woody-plant lookup hands out is new to the plants found so
      far, and either a pool card's or freshly minted. */
  lemma LookupIdFresh(catalog: seq<Blueprint>, deck0: Deck, nextId0: nat, p: Pass, dto: WoodyPlantCardDto)
    requires IdsBelow(deck0.woodyPlants, nextId0)
    requires PlantPoolKept(deck0.woodyPlants, nextId0, p)
    ensures var found := FindWoodyPlantOfDto(p.deck.woodyPlants, dto, p.woodyPlants, catalog, p.nextId);
      found.card.Some? ==>
        p.nextId <= found.nextId
        && (found.card.value.id in IdsOf(deck0.woodyPlants, IdOfWoodyPlant) || nextId0 <= found.card.value.id < found.nextId)
        && found.card.value.id !in IdsOf(p.woodyPlants, IdOfWoodyPlant)
  {
    var found := FindWoodyPlantOfDto(p.deck.woodyPlants, dto, p.woodyPlants, catalog, p.nextId);
    var ids := IdsOf(p.woodyPlants, IdOfWoodyPlant);
    if found.card.Some? {
      var c := found.card.value;
      if exists x :: x in p.deck.woodyPlants && WoodyPlantEligible(x, dto, p.woodyPlants) {
        assert c in p.deck.woodyPlants;
        assert c in deck0.woodyPlants && c.id !in ids;
      } else {
        assert c.id == p.nextId;
        forall x | x in p.woodyPlants
          ensures x.id < p.nextId
        {
          if x.id in IdsOf(deck0.woodyPlants, IdOfWoodyPlant) {
            var y :| y in deck0.woodyPlants && y.id == x.id;
          }
        }
        assert c.id !in ids;
      }
    }
  }

  lemma PlantStepKeepsPools(catalog: seq<Blueprint>, deck0: Deck, nextId0: nat, p: Pass, dto: WoodyPlantCardDto)
    requires IdsBelow(deck0.woodyPlants, nextId0)
    requires PoolsKept(deck0, nextId0, p)
    ensures PoolsKept(deck0, nextId0, PlantStep(catalog, p, dto))
  {
    PlantStepFacts(catalog, p, dto);
    var found := FindWoodyPlantOfDto(p.deck.woodyPlants, dto, p.woodyPlants, catalog, p.nextId);
    if found.card.Some? {
      LookupIdFresh(catalog, deck0, nextId0, p, dto);
      var w := found.card.value;
      var p' := p.(nextId := found.nextId);
      assert PoolsKept(deck0, nextId0, p');
      PlaceDwellersKeepsPool(deck0.dwellers, p', w, dto.dwellers);
      PlaceDwellersKeepsPlantPool(deck0.woodyPlants, nextId0, p', w, dto.dwellers);
      PlaceDwellersFrame(p', w, dto.dwellers);
      PlaceDwellersSlots(p', w, dto.dwellers);
      var (r, w') := PlaceDwellers(p', w, dto.dwellers);
      AppendPlantKeeps(deck0.woodyPlants, nextId0, r, w');
    }
  }

  /** Pool ownership over a whole forest: the deck's woody-plant and dweller
      pools lose exactly the cards found, every found card came from the deck
      or (a woody plant only) was minted from a fresh id, no id is found
      twice, and the caves are untouched. */
  lemma {:induction false} ReconcileForestKeepsPools(catalog: seq<Blueprint>, deck0: Deck, nextId0: nat, p: Pass,
                                                     dtos: seq<WoodyPlantCardDto>)
    requires IdsBelow(deck0.woodyPlants, nextId0)
    requires PoolsKept(deck0, nextId0, p)
    ensures PoolsKept(deck0, nextId0, ReconcileForest(catalog, p, dtos))
    decreases |dtos|
  {
    if dtos != [] {
      PlantStepKeepsPools(catalog, deck0, nextId0, p, dtos[0]);
      ReconcileForestKeepsPools(catalog, deck0, nextId0, PlantStep(catalog, p, dtos[0]), dtos[1..]);
    }
  }

  /** The woody-plant DTOs, in order, split into the woody plants found for
      them (each matching its DTO) and the DTOs that found none;
      `dwellerDtos` is the dweller DTOs of the found ones, in order: the
      dwellers of an unfound woody plant are never looked for. */
  predicate PlantsSplit(dtos: seq<WoodyPlantCardDto>, plants: seq<WoodyPlantCard>, missing: seq<WoodyPlantCardDto>,
                        dwellerDtos: seq<DwellerCardDto>)
    decreases |dtos|
  {
    if dtos == [] then plants == [] && missing == [] && dwellerDtos == []
    else
      (plants != [] && WoodyPlantMatches(plants[0], dtos[0]) && dtos[0].dwellers <= dwellerDtos
       && PlantsSplit(dtos[1..], plants[1..], missing, dwellerDtos[|dtos[0].dwellers|..]))
      || (missing != [] && missing[0] == dtos[0] && PlantsSplit(dtos[1..], plants, missing[1..], dwellerDtos))
  }

  lemma {:induction false} DwellersSplitAppend(a: seq<DwellerCardDto>, pa: seq<DwellerCard>, ma: seq<DwellerCardDto>,
                                               b: seq<DwellerCardDto>, pb: seq<DwellerCard>, mb: seq<DwellerCardDto>)
    requires DwellersSplit(a, pa, ma) && DwellersSplit(b, pb, mb)
    ensures DwellersSplit(a + b, pa + pb, ma + mb)
    decreases |a|
  {
    if a == [] {
      assert a + b == b && pa + pb == pb && ma + mb == mb;
    } else {
      assert (a + b)[0] == a[0] && (a + b)[1..] == a[1..] + b;
      if pa != [] && DwellerMatches(pa[0], a[0]) && DwellersSplit(a[1..], pa[1..], ma) {
        DwellersSplitAppend(a[1..], pa[1..], ma, b, pb, mb);
        assert (pa + pb)[0] == pa[0] && (pa + pb)[1..] == pa[1..] + pb;
      } else {
        DwellersSplitAppend(a[1..], pa, ma[1..], b, pb, mb);
        assert (ma + mb)[0] == ma[0] && (ma + mb)[1..] == ma[1..] + mb;
      }
    }
  }

  /** What one woody-plant DTO `dto` adds to the record from `p` to `q`:
      nothing found and the DTO listed, or one matching woody plant found
      and its dweller DTOs accounted for in order. */
  ghost predicate StepAccounted(dto: WoodyPlantCardDto, found: bool, p: Pass, q: Pass) {
    p.woodyPlants <= q.woodyPlants && p.unavailableWoodyPlants <= q.unavailableWoodyPlants
    && p.dwellers <= q.dwellers && p.unavailableDwellers <= q.unavailableDwellers
    && (!found ==>
          q.woodyPlants[|p.woodyPlants|..] == [] && q.unavailableWoodyPlants[|p.unavailableWoodyPlants|..] == [dto]
          && q.dwellers[|p.dwellers|..] == [] && q.unavailableDwellers[|p.unavailableDwellers|..] == [])
    && (found ==>
          |q.woodyPlants| == |p.woodyPlants| + 1 && WoodyPlantMatches(q.woodyPlants[|p.woodyPlants|], dto)
          && q.unavailableWoodyPlants[|p.unavailableWoodyPlants|..] == []
          && DwellersSplit(dto.dwellers, q.dwellers[|p.dwellers|..], q.unavailableDwellers[|p.unavailableDwellers|..]))
  }

  /** What the DTOs `dtos` add to the record from `p` to `q`: every
      woody-plant DTO, in order, either found a woody plant matching it or is
      listed as unavailable, and every dweller DTO of a found one, in order,
      either found a dweller matching it or is listed as unavailable. */
  ghost predicate Accounted(dtos: seq<WoodyPlantCardDto>, p: Pass, q: Pass) {
    p.woodyPlants <= q.woodyPlants && p.dwellers <= q.dwellers
    && p.unavailableWoodyPlants <= q.unavailableWoodyPlants && p.unavailableDwellers <= q.unavailableDwellers
    && exists dwellerDtos ::
         PlantsSplit(dtos, q.woodyPlants[|p.woodyPlants|..], q.unavailableWoodyPlants[|p.unavailableWoodyPlants|..], dwellerDtos)
         && DwellersSplit(dwellerDtos, q.dwellers[|p.dwellers|..], q.unavailableDwellers[|p.unavailableDwellers|..])
  }

  lemma PlantStepAccounts(catalog: seq<Blueprint>, p: Pass, dto: WoodyPlantCardDto)
    ensures StepAccounted(dto, FindWoodyPlantOfDto(p.deck.woodyPlants, dto, p.woodyPlants, catalog, p.nextId).card.Some?,
                          p, PlantStep(catalog, p, dto))
  {
    PlantStepFacts(catalog, p, dto);
    var found := FindWoodyPlantOfDto(p.deck.woodyPlants, dto, p.woodyPlants, catalog, p.nextId);
    var q := PlantStep(catalog, p, dto);
    if found.card.None? {
      assert q.unavailableWoodyPlants == p.unavailableWoodyPlants + [dto];
    } else {
      var w := found.card.value;
      var p' := p.(nextId := found.nextId);
      PlaceDwellersFrame(p', w, dto.dwellers);
      PlaceDwellersSlots(p', w, dto.dwellers);
      PlaceDwellersAccounts(p', w, dto.dwellers);
      var (r, w') := PlaceDwellers(p', w, dto.dwellers);
      assert q.woodyPlants == p.woodyPlants + [w'];
      assert WoodyPlantMatches(w', dto);
    }
  }

  /** One woody-plant DTO accounted for, then the rest. */
  lemma AccountedCons(dtos: seq<WoodyPlantCardDto>, found: bool, p: Pass, p1: Pass, q: Pass)
    requires dtos != [] && StepAccounted(dtos[0], found, p, p1) && Accounted(dtos[1..], p1, q)
    ensures Accounted(dtos, p, q)
  {
    var plants' := q.woodyPlants[|p1.woodyPlants|..];
    var missing' := q.unavailableWoodyPlants[|p1.unavailableWoodyPlants|..];
    var placed' := q.dwellers[|p1.dwellers|..];
    var missingD' := q.unavailableDwellers[|p1.unavailableDwellers|..];
    var ds' :| PlantsSplit(dtos[1..], plants', missing', ds') && DwellersSplit(ds', placed', missingD');
    SliceSplit(p.woodyPlants, p1.woodyPlants, q.woodyPlants);
    SliceSplit(p.unavailableWoodyPlants, p1.unavailableWoodyPlants, q.unavailableWoodyPlants);
    SliceSplit(p.dwellers, p1.dwellers, q.dwellers);
    SliceSplit(p.unavailableDwellers, p1.unavailableDwellers, q.unavailableDwellers);
    if !found {
      SplitSkip(dtos, plants', missing', ds');
      assert q.woodyPlants[|p.woodyPlants|..] == plants';
      assert q.unavailableWoodyPlants[|p.unavailableWoodyPlants|..] == [dtos[0]] + missing';
      assert q.dwellers[|p.dwellers|..] == placed' && q.unavailableDwellers[|p.unavailableDwellers|..] == missingD';
    } else {
      var x := p1.woodyPlants[|p.woodyPlants|];
      SplitFound(dtos, x, plants', missing', ds');
      DwellersSplitAppend(dtos[0].dwellers, p1.dwellers[|p.dwellers|..], p1.unavailableDwellers[|p.unavailableDwellers|..],
                          ds', placed', missingD');
      assert p1.woodyPlants[|p.woodyPlants|..] == [x];
      assert q.woodyPlants[|p.woodyPlants|..] == [x] + plants';
      assert q.unavailableWoodyPlants[|p.unavailableWoodyPlants|..] == missing';
    }
  }

  /** Collect-all over a forest: the record a pass leaves accounts for every
      woody-plant DTO and every dweller DTO of a found one, in order. */
  lemma {:induction false} ReconcileForestAccounts(catalog: seq<Blueprint>, p: Pass, dtos: seq<WoodyPlantCardDto>)
    ensures Accounted(dtos, p, ReconcileForest(catalog, p, dtos))
    decreases |dtos|
  {
    var q := ReconcileForest(catalog, p, dtos);
    if dtos == [] {
      assert q == p;
      assert q.woodyPlants[|p.woodyPlants|..] == [] && q.unavailableWoodyPlants[|p.unavailableWoodyPlants|..] == [];
      assert q.dwellers[|p.dwellers|..] == [] && q.unavailableDwellers[|p.unavailableDwellers|..] == [];
      assert PlantsSplit(dtos, [], [], []);
    } else {
      var p1 := PlantStep(catalog, p, dtos[0]);
      PlantStepAccounts(catalog, p, dtos[0]);
      ReconcileForestAccounts(catalog, p1, dtos[1..]);
      assert q == ReconcileForest(catalog, p1, dtos[1..]);
      AccountedCons(dtos, FindWoodyPlantOfDto(p.deck.woodyPlants, dtos[0], p.woodyPlants, catalog, p.nextId).card.Some?,
                    p, p1, q);
    }
  }

  lemma SplitSkip(dtos: seq<WoodyPlantCardDto>, plants: seq<WoodyPlantCard>, missing: seq<WoodyPlantCardDto>,
                  dwellerDtos: seq<DwellerCardDto>)
    requires dtos != [] && PlantsSplit(dtos[1..], plants, missing, dwellerDtos)
    ensures PlantsSplit(dtos, plants, [dtos[0]] + missing, dwellerDtos)
  {
    assert ([dtos[0]] + missing)[1..] == missing;
  }

  lemma SplitFound(dtos: seq<WoodyPlantCardDto>, x: WoodyPlantCard, plants: seq<WoodyPlantCard>,
                   missing: seq<WoodyPlantCardDto>, dwellerDtos: seq<DwellerCardDto>)
    requires dtos != [] && WoodyPlantMatches(x, dtos[0]) && PlantsSplit(dtos[1..], plants, missing, dwellerDtos)
    ensures PlantsSplit(dtos, [x] + plants, missing, dtos[0].dwellers + dwellerDtos)
  {
    assert ([x] + plants)[1..] == plants;
    assert (dtos[0].dwellers + dwellerDtos)[|dtos[0].dwellers|..] == dwellerDtos;
  }

  /** The dweller DTOs of all the woody-plant DTOs, in order. */
  function AllDwellerDtos(dtos: seq<WoodyPlantCardDto>): seq<DwellerCardDto>
    decreases |dtos|
  {
    if dtos == [] then [] else dtos[0].dwellers + AllDwellerDtos(dtos[1..])
  }

  /** When no woody-plant DTO went unfound, every one of them found a
      matching woody plant, in order, and the dwellers looked for are all of
      their dweller DTOs. */
  lemma {:induction false} PlantsSplitComplete(dtos: seq<WoodyPlantCardDto>, plants: seq<WoodyPlantCard>,
                                               dwellerDtos: seq<DwellerCardDto>)
    requires PlantsSplit(dtos, plants, [], dwellerDtos)
    ensures |plants| == |dtos|
    ensures forall i :: 0 <= i < |dtos| ==> WoodyPlantMatches(plants[i], dtos[i])
    ensures dwellerDtos == AllDwellerDtos(dtos)
    decreases |dtos|
  {
    if dtos != [] {
      var n := |dtos[0].dwellers|;
      PlantsSplitComplete(dtos[1..], plants[1..], dwellerDtos[n..]);
      assert dwellerDtos == dwellerDtos[..n] + dwellerDtos[n..];
      forall i | 0 <= i < |dtos|
        ensures WoodyPlantMatches(plants[i], dtos[i])
      {
        if i > 0 {
          assert plants[i] == plants[1..][i - 1] && dtos[i] == dtos[1..][i - 1];
        }
      }
    }
  }
}
