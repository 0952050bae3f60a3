/** src/game/sharing/import.ts: importGame, importPlayer, importPlayerData
    and findUniqueName as methods over a Game object, each proved against the
    functions of module Reconcile and module Names. */
module Import {
  import opened Options
  import opened Json
  import opened Dto
  import opened Schemas
  import opened GameTypes
  import opened Matching
  import opened Names
  import opened Results
  import opened Reconcile

  /** importPlayer's checks before any card is looked for, in their order:
      the text must decode, the value must fit PlayerExportDtoSchema, the app
      version must be the running one and every game box of the export must
      be one of the game's. */
  function CheckPlayerExport(decoded: Option<Json>, v: Vocabulary, version: string,
                             gameBoxes: seq<string>): (r: Result<PlayerDto, ImportErrorType>)
    ensures r == Failure(InvalidData) <==> decoded.None?
    ensures r == Failure(InvalidSchema) <==> decoded.Some? && !ValidPlayerExportDto(v, decoded.value)
    ensures r == Failure(AppVersionMismatch) <==>
              decoded.Some? && ValidPlayerExportDto(v, decoded.value)
              && ValueAt(decoded.value, "appVersion") != JString(version)
    ensures r == Failure(GameBoxesMismatch) <==>
              decoded.Some? && ValidPlayerExportDto(v, decoded.value)
              && ValueAt(decoded.value, "appVersion") == JString(version)
              && !GameBoxesAmong(decoded.value, gameBoxes)
    ensures r.Failure? ==> r.error != UnavailableCards
    ensures r.Success? <==>
              decoded.Some? && ValidPlayerExportDto(v, decoded.value)
              && ValueAt(decoded.value, "appVersion") == JString(version)
              && GameBoxesAmong(decoded.value, gameBoxes)
    ensures r.Success? ==> ParsePlayerDto(v, ValueAt(decoded.value, "player")) == Some(r.value)
  {
    if decoded.None? then Failure(InvalidData)
    else
      match ParsePlayerExportDto(v, decoded.value)
      case None => Failure(InvalidSchema)
      case Some(e) =>
        if e.appVersion != version then Failure(AppVersionMismatch)
        else if !(forall g :: g in e.gameBoxes ==> g in gameBoxes) then Failure(GameBoxesMismatch)
        else Success(e.player)
  }

  /** Every game box listed in the export is one of `gameBoxes`. */
  predicate GameBoxesAmong(exported: Json, gameBoxes: seq<string>) {
    forall i :: 0 <= i < |ItemsAt(exported, "gameBoxes")| ==> IsMember(ItemsAt(exported, "gameBoxes")[i], set g | g in gameBoxes)
  }

  /** importGame's checks before the game is built: the value must fit
      GameDtoSchema (a misfit is reported as InvalidData) and the app
      version must be the running one. */
  function CheckGameExport(data: Json, v: Vocabulary, version: string): (r: Result<GameDto, ImportErrorType>)
    ensures r == Failure(InvalidData) <==> !ValidGameDto(v, data)
    ensures r == Failure(AppVersionMismatch) <==>
              ValidGameDto(v, data) && ValueAt(data, "appVersion") != JString(version)
    ensures r.Success? <==> ValidGameDto(v, data) && ValueAt(data, "appVersion") == JString(version)
    ensures r.Success? ==>
              r.value.appVersion == version && ValueAt(data, "id") == JString(r.value.id)
              && r.value.scoringMode in v.scoringModes
              && |r.value.players| == |ItemsAt(data, "players")|
    ensures r.Success? ==> ParseGameDto(v, data) == Some(r.value)
  {
    match ParseGameDto(v, data)
    case None => Failure(InvalidData)
    case Some(e) => if e.appVersion != version then Failure(AppVersionMismatch) else Success(e)
  }

  /** findUniqueName: the requested name, or the first of "name (1)",
      "name (2)", … that no player of the game has. */
  method FindUniqueName(game: Game, name: string) returns (uniqueName: string)
    ensures uniqueName == UniqueName(NamesOf(game.players), name)
    ensures uniqueName !in NamesOf(game.players)
  {
    ghost var names := NamesOf(game.players);
    uniqueName := name;
    var counter := 1;
    while exists p :: p in game.players && p.name == uniqueName
      invariant counter >= 1
      invariant uniqueName == Candidate(name, counter - 1)
      invariant forall j :: 0 <= j < counter - 1 ==> Candidate(name, j) in names
      invariant UniqueNameFrom(names, name, counter - 1) == UniqueNameFrom(names, name, 0)
      decreases |names| - (counter - 1)
    {
      assert Candidate(name, counter - 1) in names by {
        var p :| p in game.players && p.name == uniqueName;
      }
      TakenBound(names, name, counter);
      UniqueNameFromTaken(names, name, counter - 1);
      uniqueName := name + " (" + NatToString(counter) + ")";
      assert uniqueName == Candidate(name, counter);
      counter := counter + 1;
    }
    assert uniqueName !in names;
  }

  /** The inner loop of importPlayerData over one found woody plant: each
      dweller DTO in order either finds a dweller, which goes into the
      plant's slot for its position and leaves the game's deck, or is
      recorded as unavailable. The woody plants found so far, the woody-plant
      DTOs listed and the id supply are not touched; they are ghost
      parameters only so that the result can be stated as a pass. */
  method PlaceDwellersOnPlant(game: Game, woodyPlant: WoodyPlantCard, dwellerDtos: seq<DwellerCardDto>,
                              dwellers: seq<DwellerCard>, unavailableDwellers: seq<DwellerCardDto>,
                              ghost woodyPlants: seq<WoodyPlantCard>,
                              ghost unavailableWoodyPlants: seq<WoodyPlantCardDto>, ghost ids: nat)
    returns (placed: WoodyPlantCard, dwellersAfter: seq<DwellerCard>, unavailableDwellersAfter: seq<DwellerCardDto>)
    modifies game`deck
    ensures PlaceDwellers(Pass(old(game.deck), woodyPlants, dwellers, unavailableDwellers, unavailableWoodyPlants, ids),
                          woodyPlant, dwellerDtos)
            == (Pass(game.deck, woodyPlants, dwellersAfter, unavailableDwellersAfter, unavailableWoodyPlants, ids), placed)
  {
    ghost var start := Pass(game.deck, woodyPlants, dwellers, unavailableDwellers, unavailableWoodyPlants, ids);
    placed, dwellersAfter, unavailableDwellersAfter := woodyPlant, dwellers, unavailableDwellers;
    var k := 0;
    while k < |dwellerDtos|
      invariant 0 <= k <= |dwellerDtos|
      invariant PlaceDwellers(start, woodyPlant, dwellerDtos) == PlaceDwellers(Pass(game.deck, woodyPlants, dwellersAfter, unavailableDwellersAfter, unavailableWoodyPlants, ids), placed, dwellerDtos[k..])
    {
      var dwellerDto := dwellerDtos[k];
      var dweller := FindDwellerOfDto(game.deck.dwellers, dwellerDto, dwellersAfter);
      if dweller.None? {
        unavailableDwellersAfter := unavailableDwellersAfter + [dwellerDto];
      } else {
        var d := dweller.value;
        placed := PlaceInSlot(placed, d);
        dwellersAfter := dwellersAfter + [d];
        game.deck := game.deck.(dwellers := WithoutIds(game.deck.dwellers, {d.id}, IdOfDweller));
      }
      assert dwellerDtos[k..][1..] == dwellerDtos[k + 1..];
      k := k + 1;
    }
    assert dwellerDtos[k..] == [];
  }

  /** The outer loop's turn for the i-th woody-plant DTO, unfolded once. */
  lemma ReconcileForestTurn(catalog: seq<Blueprint>, p: Pass, dtos: seq<WoodyPlantCardDto>, i: nat)
    requires i < |dtos|
    ensures ReconcileForest(catalog, p, dtos[i..]) == ReconcileForest(catalog, PlantStep(catalog, p, dtos[i]), dtos[i + 1..])
  {
    assert dtos[i..][1..] == dtos[i + 1..];
  }

  /** A turn of the outer loop that found nothing only records the DTO. */
  lemma PlantStepMissing(catalog: seq<Blueprint>, p: Pass, dto: WoodyPlantCardDto, found: Lookup)
    requires found == FindWoodyPlantOfDto(p.deck.woodyPlants, dto, p.woodyPlants, catalog, p.nextId)
    requires found.card.None?
    ensures PlantStep(catalog, p, dto) == p.(unavailableWoodyPlants := p.unavailableWoodyPlants + [dto])
  {
  }

  /** A turn of the outer loop that found `found.card` is the inner loop
      over its dwellers followed by recording the woody plant. */
  lemma PlantStepFound(catalog: seq<Blueprint>, p: Pass, dto: WoodyPlantCardDto, found: Lookup,
                       q: Pass, placed: WoodyPlantCard)
    requires found == FindWoodyPlantOfDto(p.deck.woodyPlants, dto, p.woodyPlants, catalog, p.nextId)
    requires found.card.Some?
    requires PlaceDwellers(p.(nextId := found.nextId), found.card.value, dto.dwellers) == (q, placed)
    ensures PlantStep(catalog, p, dto)
            == q.(woodyPlants := q.woodyPlants + [placed],
                  deck := q.deck.(woodyPlants := WithoutIds(q.deck.woodyPlants, {placed.id}, IdOfWoodyPlant)))
  {
  }

  /** One turn of importPlayerData's outer loop: the woody-plant DTO either
      finds a woody plant, which gets its dwellers and leaves the game's
      deck, or is recorded as unavailable. */
  method ReconcileWoodyPlant(game: Game, woodyPlantDto: WoodyPlantCardDto, catalog: seq<Blueprint>,
                             woodyPlants: seq<WoodyPlantCard>, dwellers: seq<DwellerCard>,
                             unavailableDwellers: seq<DwellerCardDto>, unavailableWoodyPlants: seq<WoodyPlantCardDto>,
                             ids: nat)
    returns (woodyPlants': seq<WoodyPlantCard>, dwellers': seq<DwellerCard>, unavailableDwellers': seq<DwellerCardDto>,
             unavailableWoodyPlants': seq<WoodyPlantCardDto>, ids': nat)
    modifies game`deck
    ensures PlantStep(catalog, Pass(old(game.deck), woodyPlants, dwellers, unavailableDwellers, unavailableWoodyPlants, ids),
                      woodyPlantDto)
            == Pass(game.deck, woodyPlants', dwellers', unavailableDwellers', unavailableWoodyPlants', ids')
  {
    ghost var before := Pass(game.deck, woodyPlants, dwellers, unavailableDwellers, unavailableWoodyPlants, ids);
    woodyPlants', dwellers', unavailableDwellers', unavailableWoodyPlants', ids' :=
      woodyPlants, dwellers, unavailableDwellers, unavailableWoodyPlants, ids;
    var found := FindWoodyPlantOfDto(game.deck.woodyPlants, woodyPlantDto, woodyPlants, catalog, ids);
    if found.card.None? {
      PlantStepMissing(catalog, before, woodyPlantDto, found);
      unavailableWoodyPlants' := unavailableWoodyPlants + [woodyPlantDto];
    } else {
      ids' := found.nextId;
      var woodyPlant;
      woodyPlant, dwellers', unavailableDwellers' :=
        PlaceDwellersOnPlant(game, found.card.value, woodyPlantDto.dwellers, dwellers, unavailableDwellers,
                             woodyPlants, unavailableWoodyPlants, ids');
      PlantStepFound(catalog, before, woodyPlantDto, found,
                     Pass(game.deck, woodyPlants, dwellers', unavailableDwellers', unavailableWoodyPlants, ids'), woodyPlant);
      woodyPlants' := woodyPlants + [woodyPlant];
      game.deck := game.deck.(woodyPlants := WithoutIds(game.deck.woodyPlants, {woodyPlant.id}, IdOfWoodyPlant));
    }
  }

  /** The outer loop of importPlayerData: each woody-plant DTO of the forest
      in order either finds a woody plant, which gets its dwellers and
      leaves the game's deck, or is recorded as unavailable. It returns the
      cards found, the DTOs that found none and where the id supply stands. */
  method ReconcileForestOf(game: Game, woodyPlantDtos: seq<WoodyPlantCardDto>, catalog: seq<Blueprint>, nextId: nat)
    returns (woodyPlants: seq<WoodyPlantCard>, dwellers: seq<DwellerCard>, unavailableDwellers: seq<DwellerCardDto>,
             unavailableWoodyPlants: seq<WoodyPlantCardDto>, ids: nat)
    modifies game`deck
    ensures ReconcileForest(catalog, StartPass(old(game.deck), nextId), woodyPlantDtos)
            == Pass(game.deck, woodyPlants, dwellers, unavailableDwellers, unavailableWoodyPlants, ids)
  {
    ghost var deck0 := game.deck;
    woodyPlants, dwellers, unavailableDwellers, unavailableWoodyPlants, ids := [], [], [], [], nextId;
    var i := 0;
    while i < |woodyPlantDtos|
      invariant 0 <= i <= |woodyPlantDtos|
      invariant ReconcileForest(catalog, StartPass(deck0, nextId), woodyPlantDtos) == ReconcileForest(catalog, Pass(game.deck, woodyPlants, dwellers, unavailableDwellers, unavailableWoodyPlants, ids), woodyPlantDtos[i..])
    {
      ghost var before := Pass(game.deck, woodyPlants, dwellers, unavailableDwellers, unavailableWoodyPlants, ids);
      woodyPlants, dwellers, unavailableDwellers, unavailableWoodyPlants, ids :=
        ReconcileWoodyPlant(game, woodyPlantDtos[i], catalog, woodyPlants, dwellers, unavailableDwellers,
                            unavailableWoodyPlants, ids);
      ReconcileForestTurn(catalog, before, woodyPlantDtos, i);
      i := i + 1;
    }
    assert woodyPlantDtos[i..] == [];
  }

  /** importPlayerData: looks up the cave, then every woody plant of the
      forest and every dweller of a found woody plant, removing each card
      found from the game's deck, and builds the player only when nothing
      was missing. `nextId` is the id supply that createWoodyPlant and
      createPlayer draw from; the method returns where it stands after. */
  method ImportPlayerData(game: Game, dto: PlayerDto, catalog: seq<Blueprint>, nextId: nat)
    returns (result: PlayerImportResult, nextIdAfter: nat)
    modifies game`deck
    ensures var o := ImportPlayerDataSpec(catalog, old(game.deck), game.players, dto, nextId);
      result == o.result && game.deck == o.deck && nextIdAfter == o.nextId
  {
    var cave := FindCaveOfDto(game.deck.caves, dto.forest.cave);
    var woodyPlants, dwellers, unavailableDwellers, unavailableWoodyPlants, ids :=
      ReconcileForestOf(game, dto.forest.woodyPlants, catalog, nextId);
    if cave.None? || |unavailableDwellers| > 0 || |unavailableWoodyPlants| > 0 {
      result := PlayerError(UnavailableCards,
                            Some(Unavailable(if cave.Some? then None else Some(dto.forest.cave),
                                             unavailableDwellers, unavailableWoodyPlants)));
      nextIdAfter := ids;
    } else {
      var name := FindUniqueName(game, dto.name);
      result := PlayerSuccess(CreatePlayer(ids, name, cave.value, woodyPlants));
      nextIdAfter := ids + 1;
    }
  }


  /** importPlayer: decodes the exported text with `decode` (None standing
      for a throw), runs the checks of CheckPlayerExport, and only then
      importPlayerData; a failed check leaves the deck alone. */
  method ImportPlayer(game: Game, encodedData: string, decode: string -> Option<Json>, v: Vocabulary,
                      version: string, catalog: seq<Blueprint>, nextId: nat)
    returns (result: PlayerImportResult, nextIdAfter: nat)
    modifies game`deck
    ensures match CheckPlayerExport(decode(encodedData), v, version, game.gameBoxes)
      case Failure(error) =>
        result == PlayerError(error, None) && game.deck == old(game.deck) && nextIdAfter == nextId
      case Success(dto) =>
        var o := ImportPlayerDataSpec(catalog, old(game.deck), game.players, dto, nextId);
        result == o.result && game.deck == o.deck && nextIdAfter == o.nextId
  {
    var decodedData := decode(encodedData);
    if decodedData.None? {
      return PlayerError(InvalidData, None), nextId;
    }
    var parsed := ParsePlayerExportDto(v, decodedData.value);
    if parsed.None? {
      return PlayerError(InvalidSchema, None), nextId;
    }
    var exportDto := parsed.value;
    if exportDto.appVersion != version {
      return PlayerError(AppVersionMismatch, None), nextId;
    }
    if !(forall g :: g in exportDto.gameBoxes ==> g in game.gameBoxes) {
      return PlayerError(GameBoxesMismatch, None), nextId;
    }
    result, nextIdAfter := ImportPlayerData(game, PlayerDto(exportDto.player.name, exportDto.player.forest), catalog, nextId);
  }

  /** importGame: checks the stored value with CheckGameExport, builds a
      game with a deck from `createDeck` for its game boxes, then imports its
      players in order, stopping at the first that fails. */
  method ImportGame(data: Json, v: Vocabulary, version: string, createDeck: seq<string> -> Deck,
                    catalog: seq<Blueprint>, nextId: nat)
    returns (result: GameImportResult, nextIdAfter: nat)
    ensures match CheckGameExport(data, v, version)
      case Failure(error) => result == GameError(error, None) && nextIdAfter == nextId
      case Success(dto) =>
        match ImportPlayersSpec(catalog, createDeck(dto.gameBoxes), [], dto.players, nextId)
        case AllImported(deck, players, n) =>
          result.GameSuccess? && result.scoringMode == dto.scoringMode
          && result.game.id == dto.id && result.game.gameBoxes == dto.gameBoxes
          && result.game.deck == deck && result.game.players == players && nextIdAfter == n
        case PlayerFailed(error, unavailable) => result == GameError(error, unavailable)
    ensures result.GameSuccess? ==> fresh(result.game)
  {
    var parsed := ParseGameDto(v, data);
    if parsed.None? {
      return GameError(InvalidData, None), nextId;
    }
    var exportDto := parsed.value;
    if exportDto.appVersion != version {
      return GameError(AppVersionMismatch, None), nextId;
    }
    var game := new Game(exportDto.id, exportDto.gameBoxes, createDeck(exportDto.gameBoxes));
    var failure;
    failure, nextIdAfter := ImportPlayers(game, exportDto.players, catalog, nextId);
    if failure.Some? {
      return GameError(failure.value.error, failure.value.unavailableCards), nextIdAfter;
    }
    result := GameSuccess(exportDto.scoringMode, game);
  }

  /** importGame's player loop: each player DTO in order through
      importPlayerData against the game, each player imported pushed onto
      the game's players; the first failure ends the loop and is returned. */
  method ImportPlayers(game: Game, playerDtos: seq<PlayerDto>, catalog: seq<Blueprint>, nextId: nat)
    returns (failure: Option<PlayerImportResult>, nextIdAfter: nat)
    modifies game`deck, game`players
    ensures match ImportPlayersSpec(catalog, old(game.deck), old(game.players), playerDtos, nextId)
      case AllImported(deck, players, n) =>
        failure.None? && game.deck == deck && game.players == players && nextIdAfter == n
      case PlayerFailed(error, unavailable) => failure == Some(PlayerError(error, unavailable))
  {
    var ids := nextId;
    var i := 0;
    ghost var outcome := ImportPlayersSpec(catalog, game.deck, game.players, playerDtos, nextId);
    assert playerDtos[0..] == playerDtos;
    while i < |playerDtos|
      invariant 0 <= i <= |playerDtos|
      invariant outcome == ImportPlayersSpec(catalog, game.deck, game.players, playerDtos[i..], ids)
    {
      ghost var players := game.players;
      ghost var o := ImportPlayerDataSpec(catalog, game.deck, players, playerDtos[i], ids);
      ImportPlayersUnfold(catalog, game.deck, players, playerDtos[i..], ids);
      assert playerDtos[i..][0] == playerDtos[i] && playerDtos[i..][1..] == playerDtos[i + 1..];
      var playerImportResult;
      playerImportResult, ids := ImportPlayerData(game, playerDtos[i], catalog, ids);
      if playerImportResult.PlayerSuccess? {
        game.players := game.players + [playerImportResult.player];
        assert outcome == ImportPlayersSpec(catalog, o.deck, players + [o.result.player], playerDtos[i + 1..], o.nextId);
      } else {
        return Some(playerImportResult), ids;
      }
      i := i + 1;
    }
    assert playerDtos[i..] == [];
    failure := None;
    nextIdAfter := ids;
  }

  /** One turn of importGame's player loop. */
  lemma ImportPlayersUnfold(catalog: seq<Blueprint>, deck: Deck, players: seq<Player>, dtos: seq<PlayerDto>, nextId: nat)
    requires dtos != []
    ensures var o := ImportPlayerDataSpec(catalog, deck, players, dtos[0], nextId);
      ImportPlayersSpec(catalog, deck, players, dtos, nextId)
      == if o.result.PlayerSuccess? then ImportPlayersSpec(catalog, o.deck, players + [o.result.player], dtos[1..], o.nextId)
         else PlayerFailed(o.result.error, o.result.unavailableCards)
  {
  }
}
