/** The reconciliation pass of importPlayerData, and the player loop of
    importGame, as functions: the specification the methods of module Import
    are proved against, and the lemmas that say what a pass achieves. */
module Reconcile {
  import opened Options
  import opened Dto
  import opened GameTypes
  import opened Matching
  import opened Names
  import opened Results

  /** The state of one importPlayerData pass: the deck as the pass has left
      it so far, the cards matched so far, the DTOs that found no card, and
      the id supply. */
  datatype Pass = Pass(
    deck: Deck,
    woodyPlants: seq<WoodyPlantCard>,
    dwellers: seq<DwellerCard>,
    unavailableDwellers: seq<DwellerCardDto>,
    unavailableWoodyPlants: seq<WoodyPlantCardDto>,
    nextId: nat)

  function StartPass(deck: Deck, nextId: nat): Pass {
    Pass(deck, [], [], [], [], nextId)
  }

  /** One turn of the inner loop. A matched dweller goes into the plant's slot
      for its position, is recorded as found and leaves the deck's dweller
      pool; an unmatched one is recorded. */
  function DwellerStep(p: Pass, w: WoodyPlantCard, dto: DwellerCardDto): (r: (Pass, WoodyPlantCard))
    ensures |r.0.dwellers| + |r.0.unavailableDwellers| == |p.dwellers| + |p.unavailableDwellers| + 1
    ensures r.1.id == w.id
    ensures r.0.woodyPlants == p.woodyPlants && r.0.unavailableWoodyPlants == p.unavailableWoodyPlants
  {
    match FindDwellerOfDto(p.deck.dwellers, dto, p.dwellers)
    case None => (p.(unavailableDwellers := p.unavailableDwellers + [dto]), w)
    case Some(d) =>
      (p.(dwellers := p.dwellers + [d],
          deck := p.deck.(dwellers := WithoutIds(p.deck.dwellers, {d.id}, IdOfDweller))),
       PlaceInSlot(w, d))
  }

  /** The inner loop over one woody plant's dweller DTOs, in order. */
  function PlaceDwellers(p: Pass, w: WoodyPlantCard, dtos: seq<DwellerCardDto>): (r: (Pass, WoodyPlantCard))
    ensures |r.0.dwellers| + |r.0.unavailableDwellers| == |p.dwellers| + |p.unavailableDwellers| + |dtos|
    ensures r.1.id == w.id
    ensures r.0.woodyPlants == p.woodyPlants && r.0.unavailableWoodyPlants == p.unavailableWoodyPlants
    decreases |dtos|
  {
    if dtos == [] then (p, w)
    else
      var (p', w') := DwellerStep(p, w, dtos[0]);
      PlaceDwellers(p', w', dtos[1..])
  }

  /** One turn of the outer loop. An unmatched woody plant is recorded and its
      dwellers are skipped; a matched one gets its dwellers, is recorded as
      found and leaves the deck's woody-plant pool. */
  function PlantStep(catalog: seq<Blueprint>, p: Pass, dto: WoodyPlantCardDto): (r: Pass)
    ensures |r.woodyPlants| + |r.unavailableWoodyPlants| == |p.woodyPlants| + |p.unavailableWoodyPlants| + 1
  {
    var found := FindWoodyPlantOfDto(p.deck.woodyPlants, dto, p.woodyPlants, catalog, p.nextId);
    match found.card
    case None => p.(unavailableWoodyPlants := p.unavailableWoodyPlants + [dto])
    case Some(w) =>
      var (q, w') := PlaceDwellers(p.(nextId := found.nextId), w, dto.dwellers);
      q.(woodyPlants := q.woodyPlants + [w'],
         deck := q.deck.(woodyPlants := WithoutIds(q.deck.woodyPlants, {w'.id}, IdOfWoodyPlant)))
  }

  /** The outer loop over the forest's woody-plant DTOs, in order. */
  function ReconcileForest(catalog: seq<Blueprint>, p: Pass, dtos: seq<WoodyPlantCardDto>): (r: Pass)
    ensures |r.woodyPlants| + |r.unavailableWoodyPlants| == |p.woodyPlants| + |p.unavailableWoodyPlants| + |dtos|
    decreases |dtos|
  {
    if dtos == [] then p else ReconcileForest(catalog, PlantStep(catalog, p, dtos[0]), dtos[1..])
  }

  /** What importPlayerData returns, the deck it leaves behind and the id
      supply after it. */
  datatype PlayerDataOutcome = PlayerDataOutcome(result: PlayerImportResult, deck: Deck, nextId: nat)

  /** importPlayerData against a deck and the players already in the game. */
  function ImportPlayerDataSpec(catalog: seq<Blueprint>, deck: Deck, players: seq<Player>,
                                dto: PlayerDto, nextId: nat): (r: PlayerDataOutcome)
    ensures r.result.PlayerError? ==> r.result.error == UnavailableCards && r.result.unavailableCards.Some?
  {
    var cave := FindCaveOfDto(deck.caves, dto.forest.cave);
    var p := ReconcileForest(catalog, StartPass(deck, nextId), dto.forest.woodyPlants);
    if cave.None? || |p.unavailableDwellers| > 0 || |p.unavailableWoodyPlants| > 0 then
      PlayerDataOutcome(
        PlayerError(UnavailableCards,
                    Some(Unavailable(if cave.Some? then None else Some(dto.forest.cave),
                                     p.unavailableDwellers, p.unavailableWoodyPlants))),
        p.deck, p.nextId)
    else
      PlayerDataOutcome(
        PlayerSuccess(CreatePlayer(p.nextId, UniqueName(NamesOf(players), dto.name), cave.value, p.woodyPlants)),
        p.deck, p.nextId + 1)
  }

  /** Where importGame's player loop ends: every player imported (with the
      deck and players it leaves), or the first failure. */
  datatype PlayersOutcome =
    | AllImported(deck: Deck, players: seq<Player>, nextId: nat)
    | PlayerFailed(error: ImportErrorType, unavailableCards: Option<Unavailable>)

  /** importGame's loop: each player DTO in order against the one shared
      deck, each success appended to the players. */
  function ImportPlayersSpec(catalog: seq<Blueprint>, deck: Deck, players: seq<Player>,
                             dtos: seq<PlayerDto>, nextId: nat): (r: PlayersOutcome)
    ensures r.AllImported? ==> |r.players| == |players| + |dtos|
    ensures r.PlayerFailed? ==> r.error == UnavailableCards && r.unavailableCards.Some?
    decreases |dtos|
  {
    if dtos == [] then AllImported(deck, players, nextId)
    else
      var o := ImportPlayerDataSpec(catalog, deck, players, dtos[0], nextId);
      match o.result
      case PlayerSuccess(player) => ImportPlayersSpec(catalog, o.deck, players + [player], dtos[1..], o.nextId)
      case PlayerError(error, unavailable) => PlayerFailed(error, unavailable)
  }
}
