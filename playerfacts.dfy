/** What importPlayerData promises about one player, and what importGame's
    player loop promises about a whole game. */
module PlayerFacts {
  import opened Options
  import opened Dto
  import opened GameTypes
  import opened Matching
  import opened Names
  import opened Results
  import opened Reconcile
  import opened PassFacts
  import opened ForestFacts
  import opened MissFacts

  /** The pass importPlayerData runs over a player's forest. */
  function ForestPass(catalog: seq<Blueprint>, deck: Deck, dto: PlayerDto, nextId: nat): Pass {
    ReconcileForest(catalog, StartPass(deck, nextId), dto.forest.woodyPlants)
  }

  /** The whole record of a pass started from scratch, without slicing. */
  lemma ForestPassAccounts(catalog: seq<Blueprint>, deck: Deck, dto: PlayerDto, nextId: nat)
    ensures var q := ForestPass(catalog, deck, dto, nextId);
      exists dwellerDtos ::
        PlantsSplit(dto.forest.woodyPlants, q.woodyPlants, q.unavailableWoodyPlants, dwellerDtos)
        && DwellersSplit(dwellerDtos, q.dwellers, q.unavailableDwellers)
  {
    var q := ForestPass(catalog, deck, dto, nextId);
    ReconcileForestAccounts(catalog, StartPass(deck, nextId), dto.forest.woodyPlants);
    assert q.woodyPlants[0..] == q.woodyPlants && q.unavailableWoodyPlants[0..] == q.unavailableWoodyPlants;
    assert q.dwellers[0..] == q.dwellers && q.unavailableDwellers[0..] == q.unavailableDwellers;
  }

  /** A failed import always reports UnavailableCards with the cards that
      were missing: the cave DTO exactly when no cave of the deck has its
      name, and the woody-plant and dweller DTOs that found no card in the
      pass, in order, the dwellers of an unfound woody plant not being looked
      for. Something is always reported missing, and nothing is reported
      that the import could still have used: no dweller left in the deck
      matches a reported dweller DTO, and no woody plant left in the deck
      matches a reported woody-plant DTO, which the catalog does not offer
      either. */
  lemma ImportPlayerDataFailure(catalog: seq<Blueprint>, deck: Deck, players: seq<Player>, dto: PlayerDto, nextId: nat)
    ensures var o := ImportPlayerDataSpec(catalog, deck, players, dto, nextId);
      var q := ForestPass(catalog, deck, dto, nextId);
      o.result.PlayerError? ==>
        o.result.error == UnavailableCards && o.result.unavailableCards.Some?
        && var u := o.result.unavailableCards.value;
        (u.cave.None? <==> exists c :: c in deck.caves && c.name == dto.forest.cave.name)
        && (u.cave.Some? ==> u.cave.value == dto.forest.cave)
        && (u.cave.Some? || u.dwellers != [] || u.woodyPlants != [])
        && (exists dwellerDtos ::
              PlantsSplit(dto.forest.woodyPlants, q.woodyPlants, u.woodyPlants, dwellerDtos)
              && DwellersSplit(dwellerDtos, q.dwellers, u.dwellers))
        && (forall d, c :: d in u.dwellers && c in o.deck.dwellers ==> !DwellerMatches(c, d))
        && (forall w :: w in u.woodyPlants ==>
              !CatalogOffers(catalog, w) && forall c :: c in o.deck.woodyPlants ==> !WoodyPlantMatches(c, w))
  {
    ForestPassAccounts(catalog, deck, dto, nextId);
    StartPassJustified(catalog, deck, nextId);
    ReconcileForestJustified(catalog, StartPass(deck, nextId), dto.forest.woodyPlants);
  }

  /** A successful import yields a player whose name is new among the
      game's players (the requested one whenever it is free), whose cave is
      the deck's cave of the requested name, whose woody plants match the
      requested ones one for one and in order, and whose id is the next one
      of the id supply once the woody plants are minted. */
  lemma ImportPlayerDataSuccess(catalog: seq<Blueprint>, deck: Deck, players: seq<Player>, dto: PlayerDto, nextId: nat)
    ensures var o := ImportPlayerDataSpec(catalog, deck, players, dto, nextId);
      o.result.PlayerSuccess? ==>
        var pl := o.result.player;
        pl.name !in NamesOf(players) && (dto.name !in NamesOf(players) ==> pl.name == dto.name)
        && pl.forest.cave in deck.caves && pl.forest.cave.name == dto.forest.cave.name
        && Some(pl.forest.cave) == FindCaveOfDto(deck.caves, dto.forest.cave)
        && |pl.forest.woodyPlants| == |dto.forest.woodyPlants|
        && (forall i :: 0 <= i < |dto.forest.woodyPlants| ==>
              WoodyPlantMatches(pl.forest.woodyPlants[i], dto.forest.woodyPlants[i]))
        && nextId <= pl.id && o.nextId == pl.id + 1
  {
    var o := ImportPlayerDataSpec(catalog, deck, players, dto, nextId);
    var q := ForestPass(catalog, deck, dto, nextId);
    if o.result.PlayerSuccess? {
      ForestPassAccounts(catalog, deck, dto, nextId);
      ReconcileForestFrame(catalog, StartPass(deck, nextId), dto.forest.woodyPlants);
      var ds :| PlantsSplit(dto.forest.woodyPlants, q.woodyPlants, q.unavailableWoodyPlants, ds)
                && DwellersSplit(ds, q.dwellers, q.unavailableDwellers);
      PlantsSplitComplete(dto.forest.woodyPlants, q.woodyPlants, ds);
    }
  }

  /** On success every dweller DTO of the player's woody plants found a
      dweller matching it, in order. */
  lemma ImportPlayerDataDwellers(catalog: seq<Blueprint>, deck: Deck, players: seq<Player>, dto: PlayerDto, nextId: nat)
    ensures var o := ImportPlayerDataSpec(catalog, deck, players, dto, nextId);
      var q := ForestPass(catalog, deck, dto, nextId);
      var all := AllDwellerDtos(dto.forest.woodyPlants);
      o.result.PlayerSuccess? ==>
        |q.dwellers| == |all| && forall i :: 0 <= i < |all| ==> DwellerMatches(q.dwellers[i], all[i])
  {
    var o := ImportPlayerDataSpec(catalog, deck, players, dto, nextId);
    var q := ForestPass(catalog, deck, dto, nextId);
    if o.result.PlayerSuccess? {
      ForestPassAccounts(catalog, deck, dto, nextId);
      var ds :| PlantsSplit(dto.forest.woodyPlants, q.woodyPlants, q.unavailableWoodyPlants, ds)
                && DwellersSplit(ds, q.dwellers, q.unavailableDwellers);
      PlantsSplitComplete(dto.forest.woodyPlants, q.woodyPlants, ds);
      DwellersSplitSizes(ds, q.dwellers, q.unavailableDwellers);
    }
  }

  /** What the import does to the deck, whether it succeeds or not: the caves
      stay, and each pool loses exactly the cards found, every one of which
      came from that pool (a woody plant may instead be minted from a fresh
      id), no id twice. A failed import has still taken the cards it found.
      On success the woody plants found are the player's, and every one of
      them has an id below the player's. */
  lemma ImportPlayerDataDeck(catalog: seq<Blueprint>, deck: Deck, players: seq<Player>, dto: PlayerDto, nextId: nat)
    requires IdsBelow(deck.woodyPlants, nextId)
    ensures var o := ImportPlayerDataSpec(catalog, deck, players, dto, nextId);
      var q := ForestPass(catalog, deck, dto, nextId);
      o.deck.caves == deck.caves && nextId <= o.nextId
      && o.deck.woodyPlants == WithoutIds(deck.woodyPlants, IdsOf(q.woodyPlants, IdOfWoodyPlant), IdOfWoodyPlant)
      && DistinctIds(q.woodyPlants, IdOfWoodyPlant)
      && (forall w :: w in q.woodyPlants ==> w.id in IdsOf(deck.woodyPlants, IdOfWoodyPlant) || nextId <= w.id < q.nextId)
      && o.deck.dwellers == WithoutIds(deck.dwellers, IdsOf(q.dwellers, IdOfDweller), IdOfDweller)
      && DistinctIds(q.dwellers, IdOfDweller)
      && (forall d :: d in q.dwellers ==> d in deck.dwellers)
      && (o.result.PlayerSuccess? ==> o.result.player.forest.woodyPlants == q.woodyPlants)
      && (o.result.PlayerSuccess? ==> forall w :: w in o.result.player.forest.woodyPlants ==> w.id < o.result.player.id)
  {
    StartPassKeepsPools(deck, nextId);
    ReconcileForestKeepsPools(catalog, deck, nextId, StartPass(deck, nextId), dto.forest.woodyPlants);
    var o := ImportPlayerDataSpec(catalog, deck, players, dto, nextId);
    var q := ForestPass(catalog, deck, dto, nextId);
    if o.result.PlayerSuccess? {
      forall w | w in q.woodyPlants
        ensures w.id < q.nextId
      {
        if w.id in IdsOf(deck.woodyPlants, IdOfWoodyPlant) {
          var c :| c in deck.woodyPlants && c.id == w.id;
        }
      }
    }
  }
}
