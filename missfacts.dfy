/** Why a DTO is reported unavailable: when importPlayerData lists a DTO,
    no card left in the deck could have matched it (and, for a woody plant,
    the catalog offers no instance of it), so the report is never a card the
    import could still have used. */
module MissFacts {
  import opened Options
  import opened Dto
  import opened GameTypes
  import opened Matching
  import opened Reconcile
  import opened PassFacts

  /** No card left in a deck pool is claimed by a card the pass has found. */
  ghost predicate Unclaimed(p: Pass) {
    (forall c :: c in p.deck.dwellers ==> !Claimed(p.dwellers, IdOfDweller, c.id))
    && (forall c :: c in p.deck.woodyPlants ==> !Claimed(p.woodyPlants, IdOfWoodyPlant, c.id))
  }

  /** Every dweller DTO listed so far matches no dweller left in the deck. */
  ghost predicate DwellerMissesJustified(p: Pass) {
    forall dto, c :: dto in p.unavailableDwellers && c in p.deck.dwellers ==> !DwellerMatches(c, dto)
  }

  /** Every woody-plant DTO listed so far matches no woody plant left in the
      deck, and the catalog offers no instance of it. */
  ghost predicate PlantMissesJustified(catalog: seq<Blueprint>, p: Pass) {
    forall dto :: dto in p.unavailableWoodyPlants ==>
      !CatalogOffers(catalog, dto) && forall c :: c in p.deck.woodyPlants ==> !WoodyPlantMatches(c, dto)
  }

  ghost predicate MissesJustified(catalog: seq<Blueprint>, p: Pass) {
    Unclaimed(p) && DwellerMissesJustified(p) && PlantMissesJustified(catalog, p)
  }

  lemma ClaimedSnoc<C>(found: seq<C>, c: C, idOf: C -> CardId, id: CardId)
    ensures Claimed(found + [c], idOf, id) <==> Claimed(found, idOf, id) || idOf(c) == id
  {
    if Claimed(found + [c], idOf, id) {
      var i :| 0 <= i < |found + [c]| && idOf((found + [c])[i]) == id;
      if i < |found| {
        assert (found + [c])[i] == found[i];
      }
    }
    if Claimed(found, idOf, id) {
      var i :| 0 <= i < |found| && idOf(found[i]) == id;
      assert (found + [c])[i] == found[i];
    }
    if idOf(c) == id {
      assert (found + [c])[|found|] == c;
    }
  }

  lemma StartPassJustified(catalog: seq<Blueprint>, deck: Deck, nextId: nat)
    ensures MissesJustified(catalog, StartPass(deck, nextId))
  {
  }

  /** One turn of the dweller loop keeps every listed DTO justified: a DTO
      is listed only when every pool dweller equal to it was already claimed,
      and claimed dwellers have left the pool. */
  lemma DwellerStepJustified(catalog: seq<Blueprint>, p: Pass, w: WoodyPlantCard, dto: DwellerCardDto)
    requires MissesJustified(catalog, p)
    ensures MissesJustified(catalog, DwellerStep(p, w, dto).0)
  {
    var found := FindDwellerOfDto(p.deck.dwellers, dto, p.dwellers);
    var p1 := DwellerStep(p, w, dto).0;
    if found.None? {
      forall c | c in p.deck.dwellers
        ensures !DwellerMatches(c, dto)
      {
        assert !DwellerEligible(c, dto, p.dwellers);
      }
    } else {
      var d := found.value;
      forall c | c in p1.deck.dwellers
        ensures c in p.deck.dwellers && !Claimed(p1.dwellers, IdOfDweller, c.id)
      {
        ClaimedSnoc(p.dwellers, d, IdOfDweller, c.id);
      }
    }
  }

  lemma {:induction false} PlaceDwellersJustified(catalog: seq<Blueprint>, p: Pass, w: WoodyPlantCard,
                                                  dtos: seq<DwellerCardDto>)
    requires MissesJustified(catalog, p)
    ensures MissesJustified(catalog, PlaceDwellers(p, w, dtos).0)
    decreases |dtos|
  {
    if dtos != [] {
      var (p1, w1) := DwellerStep(p, w, dtos[0]);
      DwellerStepJustified(catalog, p, w, dtos[0]);
      PlaceDwellersJustified(catalog, p1, w1, dtos[1..]);
    }
  }

  /** One turn of the woody-plant loop keeps every listed DTO justified: a
      woody-plant DTO is listed only when no unclaimed pool card equals it
      and the catalog offers no instance of it. */
  lemma PlantStepJustified(catalog: seq<Blueprint>, p: Pass, dto: WoodyPlantCardDto)
    requires MissesJustified(catalog, p)
    ensures MissesJustified(catalog, PlantStep(catalog, p, dto))
  {
    var found := FindWoodyPlantOfDto(p.deck.woodyPlants, dto, p.woodyPlants, catalog, p.nextId);
    if found.card.None? {
      forall c | c in p.deck.woodyPlants
        ensures !WoodyPlantEligible(c, dto, p.woodyPlants) && !WoodyPlantMatches(c, dto)
      {
      }
      assert !CatalogOffers(catalog, dto);
    } else {
      var w := found.card.value;
      var p' := p.(nextId := found.nextId);
      PlaceDwellersJustified(catalog, p', w, dto.dwellers);
      PlaceDwellersFrame(p', w, dto.dwellers);
      PlaceDwellersSlots(p', w, dto.dwellers);
      var (r, w') := PlaceDwellers(p', w, dto.dwellers);
      var q := PlantStep(catalog, p, dto);
      assert q == r.(woodyPlants := r.woodyPlants + [w'],
                     deck := r.deck.(woodyPlants := WithoutIds(r.deck.woodyPlants, {w'.id}, IdOfWoodyPlant)));
      forall c | c in q.deck.woodyPlants
        ensures c in p.deck.woodyPlants && !Claimed(q.woodyPlants, IdOfWoodyPlant, c.id)
      {
        ClaimedSnoc(r.woodyPlants, w', IdOfWoodyPlant, c.id);
      }
    }
  }

  /** Over a whole forest, every DTO listed is justified. */
  lemma {:induction false} ReconcileForestJustified(catalog: seq<Blueprint>, p: Pass, dtos: seq<WoodyPlantCardDto>)
    requires MissesJustified(catalog, p)
    ensures MissesJustified(catalog, ReconcileForest(catalog, p, dtos))
    decreases |dtos|
  {
    if dtos != [] {
      PlantStepJustified(catalog, p, dtos[0]);
      ReconcileForestJustified(catalog, PlantStep(catalog, p, dtos[0]), dtos[1..]);
    }
  }
}
