# Forest Shuffle scoring: importing shared games and players

This project models the sharing importer of the Forest Shuffle scoring app
in Dafny. A game, or a single player, arrives as identity-free transfer
objects (DTOs). The importer validates them against the zod schemas, checks
the app version and the game boxes, and rebuilds real cards. Each card is
matched against the game's deck and taken out of it; a woody plant that the
catalog marks as not part of the deck is minted instead. Every DTO that
found no card is reported.

Layout, one module per file:

- `options.dfy`: Option and Result.
- `json.dfy`: the JSON value handed to the schemas.
- `dto.dfy`: the transfer objects, and the `Vocabulary` of enumeration members.
- `schemas.dfy`: the zod schemas of `src/game/sharing/schemas.ts`. Each is a shape predicate plus a parser proved to succeed exactly on that shape.
- `gametypes.dfy`: cards, deck, player, and the `Game` class whose deck and players the importer updates in place.
- `matching.dfy`: findWoodyPlantOfDto, findDwellerOfDto, findCaveOfDto.
- `names.dfy`: findUniqueName as a function, with its termination argument.
- `results.dfy`: ImportErrorType and the result shapes. The result constructors of the source are the datatype constructors.
- `reconcile.dfy`: the card-matching pass of importPlayerData and importGame's player loop, written as folds. These are the specification the card-matching methods are proved against.
- `import.dfy`: importGame, importPlayer, importPlayerData and findUniqueName as methods over a `Game`. importPlayerData's two loops are the methods `ReconcileForestOf` (the woody-plant loop), `ReconcileWoodyPlant` (one turn of it) and `PlaceDwellersOnPlant` (the dweller loop); each of these, and `ImportPlayerData` and `ImportPlayers`, ties its result and the game's new state to a fold of `reconcile.dfy`. `FindUniqueName` is tied to `Names.UniqueName`. `ImportPlayer` and `ImportGame` are tied to the checks `CheckPlayerExport` and `CheckGameExport`, then to the folds.
- `passfacts.dfy`, `forestfacts.dfy`, `playerfacts.dfy`, `gamefacts.dfy`: what a pass, a player import and a game import achieve.
- `missfacts.dfy`: why a DTO is reported unavailable: no card left in the deck could have matched it.
- `assembly.dfy`: how the found dwellers end up in the slots of the found woody plants.
- `stability.dfy`: when importPlayerData succeeds, counted key by key, and why the order of the DTOs never changes that.

## Model

| member | source | states |
|---|---|---|
| Schemas.ParseDwellerCardDto | src/game/sharing/schemas.ts:6-11 | parsing succeeds exactly when the value has a string name, a known game box, a known tree symbol or null, and a known position; on success each field of the DTO is the input's value for that key |
| Schemas.ParseWoodyPlantCardDto | src/game/sharing/schemas.ts:13-18 | parsing succeeds exactly when the card fields are valid and every dweller in the array is valid; one bad dweller rejects the card; on success name, game box and tree symbol are the input's values, and the i-th dweller DTO is the parse of the i-th array element |
| Schemas.ParseCaveDto | src/game/sharing/schemas.ts:20-23 | parsing succeeds exactly when the value has a string name and a numeric card count; on success both are the input's values |
| Schemas.ParseForestDto | src/game/sharing/schemas.ts:25-28 | parsing succeeds exactly when every woody plant is valid and the cave is valid; on success the cave is the parse of the input's cave, and the i-th woody-plant DTO is the parse of the i-th array element |
| Schemas.ParsePlayerDto | src/game/sharing/schemas.ts:30-33 | parsing succeeds exactly when the value has a string name and a valid forest; on success the name is the input's and the forest is the parse of the input's forest |
| Schemas.ParsePlayerExportDto | src/game/sharing/schemas.ts:35-39 | parsing succeeds exactly on a valid player export; on success the app version is the input's string, the i-th game box is the i-th array string and a known member, and the player is the parse of the input's player |
| Schemas.ParseGameDto | src/game/sharing/schemas.ts:41-47 | parsing succeeds exactly on a valid game; on success the app version and id are the input's strings, the scoring mode is the input's string and a known member, the i-th game box is the i-th array string, and the i-th player DTO is the parse of the i-th array element |
| Schemas.GameBoxesAt | src/game/sharing/schemas.ts:37 | `z.array(z.enum(GameBox))`: a list exactly when the key holds an array of known game boxes; on success the i-th entry is the i-th array string |
| Matching.Find | src/game/sharing/import.ts:284-291 | `find` yields None exactly when no element satisfies the test; otherwise it yields the first element that does |
| Matching.FindDwellerOfDto | src/game/sharing/import.ts:279-291 | None exactly when no pool dweller equals the DTO on name, game box, tree symbol and position while being unclaimed; otherwise the first such dweller of the pool |
| Matching.FindCaveOfDto | src/game/sharing/import.ts:293-294 | None exactly when no cave has the DTO's name; otherwise the first cave with that name, whatever the card count |
| Matching.FindWoodyPlantOfDto | src/game/sharing/import.ts:254-277 | if an unclaimed matching pool card exists, the result is the first one and no id is used; otherwise a card exists exactly when the first blueprint with the name is flagged not part of the deck and has the variant, and it then has a fresh id and empty slots; every card returned matches the DTO |
| GameTypes.WithoutIds | src/game/sharing/import.ts:201-203 | filtering the pool by id keeps exactly the cards whose id is not removed, and never grows the pool |
| GameTypes.WithoutIdsAppend | src/game/sharing/import.ts:201-203 | filtering a pool split in two is filtering each part and joining them, so the pool's order and each card's multiplicity are kept |
| GameTypes.WithoutIdsOne | src/game/sharing/import.ts:207-209 | a one-card pool keeps its card exactly when the card's id is not removed |
| GameTypes.WithoutIdsTwice | src/game/sharing/import.ts:201-209 | removing cards one at a time is the same as removing the union of their ids once |
| GameTypes.PlaceInSlot | src/game/sharing/import.ts:196-198 | adding a dweller keeps the woody plant's identity and face, appends the dweller to the slot for its position, and leaves every other slot as it was |
| Names.UniqueName | src/game/sharing/import.ts:242-252 | the name returned is taken by no player; it is the requested name when that is free; otherwise it is `name (k)` for the least k >= 1 whose name is free |
| Names.TakenBound | src/game/sharing/import.ts:246-249 | if the first k names tried are all taken, at least k names are taken, so the search ends |
| Names.AliceOnce | src/game/sharing/import.ts:242-252 | importing "Alice" next to "Alice" yields "Alice (1)" |
| Names.AliceTwice | src/game/sharing/import.ts:242-252 | with "Alice" and "Alice (1)" taken, the result is "Alice (2)" |
| Import.FindUniqueName | src/game/sharing/import.ts:242-252 | the loop returns `UniqueName` of the game's player names, a name no player has |
| Import.CheckPlayerExport | src/game/sharing/import.ts:130-158 | gates, in order: InvalidData exactly when decoding fails; InvalidSchema exactly when the value misfits the schema; AppVersionMismatch exactly when the version differs; GameBoxesMismatch exactly when a valid export of the right version lists a game box the game lacks; success exactly when it passes all four; success yields the parse of the export's player; never UnavailableCards |
| Import.CheckGameExport | src/game/sharing/import.ts:54-64 | InvalidData exactly when the value misfits GameDtoSchema; AppVersionMismatch exactly when a valid value has another app version; success otherwise, carrying the running app version, the input's id, a known scoring mode and one player DTO per element; success yields exactly the parsed game |
| Import.PlaceDwellersOnPlant | src/game/sharing/import.ts:189-204 | the dweller loop leaves the plant, the deck and the records as the fold `PlaceDwellers` from the old deck says |
| Import.ReconcileWoodyPlant | src/game/sharing/import.ts:183-209 | one turn of the woody-plant loop leaves the deck and the records as `PlantStep` from the old deck says |
| Import.ReconcileForestOf | src/game/sharing/import.ts:177-210 | the woody-plant loop, started from empty records, leaves the deck and the records as the fold `ReconcileForest` from the old deck says |
| Import.ImportPlayerData | src/game/sharing/import.ts:166-226 | the method's result, the deck it leaves in the game and the id supply equal the fold `ImportPlayerDataSpec` over the old deck |
| Import.ImportPlayer | src/game/sharing/import.ts:126-164 | a failed check returns that error with no card report and leaves the deck unchanged; otherwise it is importPlayerData on the exported player |
| Import.ImportGame | src/game/sharing/import.ts:51-87 | a failed check returns that error; otherwise a newly created game with the DTO's id and game boxes and a deck made from those game boxes, whose players and deck are what the player loop yields, or the first player failure |
| Import.ImportPlayers | src/game/sharing/import.ts:73-84 | the loop leaves the game's deck and players as `ImportPlayersSpec` says, or returns the first failed player result |
| Reconcile.DwellerStep | src/game/sharing/import.ts:189-204 | one dweller DTO is counted once, found or listed; the woody plant keeps its id; the woody-plant records stay |
| Reconcile.PlaceDwellers | src/game/sharing/import.ts:189-204 | every dweller DTO of the plant is counted once, found or listed; the woody plant keeps its id; the woody-plant records stay |
| Reconcile.PlantStep | src/game/sharing/import.ts:183-209 | one woody-plant DTO is counted once, found or listed |
| Reconcile.ReconcileForest | src/game/sharing/import.ts:182-210 | every woody-plant DTO of the forest is counted once, found or listed |
| Reconcile.ImportPlayerDataSpec | src/game/sharing/import.ts:212-222 | a failure is always UnavailableCards with a report |
| Reconcile.ImportPlayersSpec | src/game/sharing/import.ts:73-84 | when every player imports there is one new player per DTO; a failed player is always UnavailableCards with a report |
| PassFacts.PlaceDwellersAccounts | src/game/sharing/import.ts:189-204 | the dweller loop only extends what it records; every dweller DTO, in order, either found a dweller matching it or is listed as unavailable |
| PassFacts.DwellersSplitSizes | src/game/sharing/import.ts:189-204 | every dweller DTO is counted once, found or missing; with nothing missing, the i-th dweller found matches the i-th DTO |
| PassFacts.PlaceDwellersFrame | src/game/sharing/import.ts:189-204 | the dweller loop leaves the woody-plant pool, the caves, the id supply and the woody-plant records alone |
| PassFacts.PlaceDwellersKeepsPool | src/game/sharing/import.ts:189-204 | the deck's dweller pool is the starting pool without exactly the dwellers found; each of them came from the starting pool; none was found twice |
| PassFacts.PlaceDwellersSlots | src/game/sharing/import.ts:189-204 | the woody plant keeps its id and face; each position slot gains exactly the dwellers found for that position, in DTO order |
| ForestFacts.ReconcileForestFrame | src/game/sharing/import.ts:182-210 | the forest pass leaves the caves alone, never lowers the id supply, and only extends what it records |
| ForestFacts.PlantStepAccounts | src/game/sharing/import.ts:183-209 | one woody-plant DTO either is listed as unavailable, with its dwellers skipped, or finds one matching woody plant, with its dweller DTOs accounted for in order |
| ForestFacts.ReconcileForestAccounts | src/game/sharing/import.ts:182-210 | over a forest, every woody-plant DTO, in order, found a matching woody plant or is listed; the dweller DTOs of the found ones, and only those, found a matching dweller or are listed |
| ForestFacts.ReconcileForestKeepsPools | src/game/sharing/import.ts:182-210 | each deck pool loses exactly the cards found; every found dweller came from the deck; every found woody plant came from the deck or has a freshly minted id; no id is found twice; the caves stay |
| ForestFacts.PlantsSplitComplete | src/game/sharing/import.ts:182-210 | if no woody-plant DTO is missing, there is one matching woody plant per DTO, in order, and every dweller DTO was looked for |
| PlayerFacts.ImportPlayerDataFailure | src/game/sharing/import.ts:212-222 | against the pass importPlayerData actually ran: a failure is always UnavailableCards with a report; the cave DTO is reported exactly when no deck cave has its name; something is always reported; the woody-plant and dweller DTOs reported are exactly those that found nothing, in order; no dweller left in the deck matches a reported dweller DTO; the catalog offers no instance of a reported woody-plant DTO and no woody plant left in the deck matches it |
| PlayerFacts.ImportPlayerDataSuccess | src/game/sharing/import.ts:224-225 | on success, the player's name is new among the players and is the requested name when free; the cave is the first deck cave with the requested name, as findCaveOfDto picks it; the woody plants match the DTOs one for one, in order; the player id is taken from the id supply, which moves on past it |
| PlayerFacts.ImportPlayerDataDwellers | src/game/sharing/import.ts:189-204 | on success, every dweller DTO of the forest found a matching dweller, in order |
| PlayerFacts.ImportPlayerDataDeck | src/game/sharing/import.ts:175-226 | success or not, the caves stay; each pool loses exactly the cards found, which came from it (or were minted) with no id twice; a failed import has still taken the cards it found; on success the player's woody plants are the cards found, and every one of their ids is below the player's id |
| GameFacts.ImportPlayerDataExclusive | src/game/sharing/import.ts:166-226 | a successful player import keeps every woody plant card in at most one place: one forest or the deck |
| GameFacts.ImportPlayersFacts | src/game/sharing/import.ts:73-84 | on success, the players are the old ones followed by one new player per DTO, names stay distinct, the id supply only grows, and the caves stay; a failure is always UnavailableCards with a report |
| MissFacts.PlantStepJustified | src/game/sharing/import.ts:183-209 | one turn of the woody-plant loop lists a DTO only when no unclaimed deck card matches it and the catalog offers none, and keeps earlier listings justified |
| MissFacts.ReconcileForestJustified | src/game/sharing/import.ts:182-222 | over the whole forest, every listed woody-plant or dweller DTO matches no card left in the deck, and a listed woody plant is offered by no catalog entry |
| Assembly.ReconcileForestAssembles | src/game/sharing/import.ts:182-210 | when nothing is listed, the i-th woody plant found matches the i-th DTO and each of its slots holds exactly the dwellers found for that DTO with that position, in DTO order |
| Assembly.ImportPlayerDataSlots | src/game/sharing/import.ts:166-226 | a successful import's forest is assembled from the DTOs, plant by plant and slot by slot |
| Assembly.AssembledHeld | src/game/sharing/import.ts:196-200 | an assembled forest holds exactly the ids of the dwellers found |
| GameFacts.ImportPlayersInOrder | src/game/sharing/import.ts:73-84 | on success, the players are the old ones followed, in order, by the import of each DTO: a name new among the players before it (the requested one when free), the first deck cave with the DTO's cave name, and woody plants matching the DTO's one for one |
| GameFacts.ImportPlayerDataDwellersExclusive | src/game/sharing/import.ts:166-226 | a successful player import's forest holds exactly the dwellers found, and keeps every dweller in at most one place: one forest or the deck |
| GameFacts.ImportPlayersDwellersExclusive | src/game/sharing/import.ts:73-86 | after the whole loop, no dweller card is in two forests, or in a forest and in the deck |
| GameFacts.ImportPlayersExclusive | src/game/sharing/import.ts:73-86 | after the whole loop, no woody plant card is in two forests, or in a forest and in the deck |
| Stability.DwellerStepAvailable | src/game/sharing/import.ts:189-204 | one dweller lookup finds a card, and the requests after it can be served, exactly when the pool holds enough cards equal to it for it and those requests together; pool ids stay distinct and unclaimed |
| Stability.PlaceDwellersAvailable | src/game/sharing/import.ts:189-204 | the dweller loop of one woody plant finds every dweller, and the later requests can be served, exactly when the pool can serve its DTOs and those requests together |
| Stability.PlantStepAvailable | src/game/sharing/import.ts:183-209 | one woody-plant turn finds a card, and the later requests can be served, exactly when the pool and the catalog can serve its key and those requests together; a pool card taken lowers its key's count by one, a minted card leaves the pool whole |
| Stability.CountWithout | src/game/sharing/import.ts:201-203 | taking a card out of a pool with distinct ids lowers the count of its key by one and leaves every other key's count alone |
| Stability.DistinctWithout | src/game/sharing/import.ts:201-203 | filtering a pool by id keeps its ids distinct |
| Stability.ForestPlantsAvailable | src/game/sharing/import.ts:182-210 | the woody-plant loop lists no DTO, and the later requests can be served, exactly when the pool and the catalog can serve every DTO's key and those requests together |
| Stability.ForestDwellersAvailable | src/game/sharing/import.ts:182-210 | when every woody plant is found, the loop lists no dweller DTO, and the later requests can be served, exactly when the dweller pool can serve all dweller DTOs and those requests together |
| Stability.ImportPlayerDataSucceeds | src/game/sharing/import.ts:166-226 | importPlayerData succeeds exactly when the deck has a cave with the requested name, each woody-plant key is offered by the catalog or held by as many pool cards as DTOs ask for it, and each dweller DTO is held by as many pool dwellers as DTOs ask for it |
| Stability.OutcomeIgnoresOrder | src/game/sharing/import.ts:166-226 | two players asking for the same cave name, the same woody-plant keys and the same dwellers, in whatever order, both import or both fail |
| Stability.PermutedDemand | src/game/sharing/import.ts:182-210 | permuted woody-plant DTOs ask for the same keys and the same dweller DTOs |
| Stability.ReorderWoodyPlants | src/game/sharing/import.ts:182-226 | reordering a forest's woody-plant DTOs never changes whether importPlayerData succeeds |
| Stability.ReorderDwellers | src/game/sharing/import.ts:189-226 | reordering the dweller DTOs of one woody-plant DTO never changes whether importPlayerData succeeds |

## Left out

- Reading `localStorage` and `JSON.parse` in importGame: `ImportGame` takes the parsed JSON value. A `JSON.parse` throw escapes importGame uncaught and is not modelled.
- `decode` (src/game/sharing/encoding) is not part of this model. It is a parameter of `ImportPlayer`, and `None` stands for a throw.
- zod's error objects and `console.error` are not modelled. A failed parse is `None`.
- The enumerations GameBox, TreeSymbol, DwellerPosition and ScoringMode are declared outside the modelled files. Their members are a `Vocabulary` parameter.
- JSON numbers are integers here. `cardCount` is only checked to be a number and plays no part in matching.
- `createDeck` and the woody-plant catalog (`@/game/woody-plants`) are not part of this model. They are parameters, and a blueprint's `isPartOfDeck` is an `Option<bool>`.
- `createWoodyPlant` and `createPlayer` mint fresh ids. Here the ids are natural numbers drawn from a threaded `nextId` supply, so "fresh" means "not handed out before".
- A woody plant's dweller slots are a map from position to a sequence. A slot that is missing reads as empty, whereas the source's `push` would throw.
- GameTypes.CreateWoodyPlant and GameTypes.CreatePlayer: the factories behind them are not part of this model. The model assumes `createWoodyPlant` gives the blueprint's name, the variant's game box and tree symbol, and empty slots, and that `createPlayer` keeps the cave and woody plants it is given. Assembly.ImportPlayerDataSlots and PlayerFacts.ImportPlayerDataDeck rely on these.
- An absent tree symbol and `null` are both `None`.
- Immer's `produce` is modelled as a value update of the woody plant.
- Exporting and the export/import round trip are not modelled: the export side is not part of this model.
- The app version `import.meta.env.PACKAGE_VERSION` is the parameter `version`.
- The `Game` object that importGame builds is a fresh `Game`; the in-place `push` onto `game.players` and the reassignment of `game.deck` pools are the field updates of that class.
- A failed importPlayer (UnavailableCards) leaves the cards it found removed from the game's deck, as the source does (`PlayerFacts.ImportPlayerDataDeck` states this). The model keeps that behaviour.
- Assembly.ImportPlayerDataSlots: assumes the deck's woody plants hold no dwellers, as `createDeck` builds them; `createDeck` is not part of this model.
- GameFacts.ImportPlayersDwellersExclusive: assumes the starting deck's woody plants hold no dwellers and no dweller is both in the deck and in a forest, which holds for the fresh deck importGame starts from.
- Stability.ImportPlayerDataSucceeds, Stability.OutcomeIgnoresOrder, Stability.ReorderWoodyPlants and Stability.ReorderDwellers: assume the deck's card ids are distinct and below the id supply, as for ids the game mints. They speak of whether importPlayerData succeeds, not of which cards a reordered import picks.
- A value that fails GameDtoSchema makes importGame report InvalidData, not InvalidSchema, as the source does.
