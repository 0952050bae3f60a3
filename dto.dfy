/** The identity-free transfer objects of the sharing format, as produced by the
    schemas once a value has been validated. */
module Dto {
  import opened Options

  /** Members of the game's string enumerations. The enumerations themselves
      (GameBox, TreeSymbol, DwellerPosition, ScoringMode) are declared outside
      the modelled files, so they are a parameter of the model. */
  datatype Vocabulary = Vocabulary(
    gameBoxes: set<string>,
    treeSymbols: set<string>,
    positions: set<string>,
    scoringModes: set<string>)

  datatype DwellerCardDto = DwellerCardDto(
    name: string,
    gameBox: string,
    treeSymbol: Option<string>,
    position: string)

  datatype WoodyPlantCardDto = WoodyPlantCardDto(
    name: string,
    gameBox: string,
    treeSymbol: Option<string>,
    dwellers: seq<DwellerCardDto>)

  datatype CaveDto = CaveDto(name: string, cardCount: int)

  datatype ForestDto = ForestDto(woodyPlants: seq<WoodyPlantCardDto>, cave: CaveDto)

  datatype PlayerDto = PlayerDto(name: string, forest: ForestDto)

  datatype PlayerExportDto = PlayerExportDto(
    appVersion: string,
    gameBoxes: seq<string>,
    player: PlayerDto)

  datatype GameDto = GameDto(
    appVersion: string,
    id: string,
    gameBoxes: seq<string>,
    scoringMode: string,
    players: seq<PlayerDto>)
}
