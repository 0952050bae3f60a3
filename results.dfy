/** The import outcomes (ImportErrorType and the result shapes of
    src/game/sharing/import.ts). The result constructors of the source
    (createErrorResult, createSuccessResult, createGameErrorResult,
    createGameSuccessResult) are the datatype constructors below. */
module Results {
  import opened Options
  import opened Dto
  import opened GameTypes

  datatype ImportErrorType =
    | InvalidData
    | InvalidSchema
    | AppVersionMismatch
    | GameBoxesMismatch
    | UnavailableCards

  /** What could not be matched: the cave DTO (None when the cave matched),
      and every unmatched dweller and woody-plant DTO in encounter order. */
  datatype Unavailable = Unavailable(
    cave: Option<CaveDto>,
    dwellers: seq<DwellerCardDto>,
    woodyPlants: seq<WoodyPlantCardDto>)

  datatype PlayerImportResult =
    | PlayerSuccess(player: Player)
    | PlayerError(error: ImportErrorType, unavailableCards: Option<Unavailable>)

  datatype GameImportResult =
    | GameSuccess(scoringMode: string, game: Game)
    | GameError(error: ImportErrorType, unavailableCards: Option<Unavailable>)
}
