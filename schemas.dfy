/** The zod schemas of the sharing format (src/game/sharing/schemas.ts).

    Each schema is given twice, as zod gives it: a shape rule (`Valid…`, what
    the schema accepts) and a parser (`Parse…`, what `.parse` returns: the
    typed transfer object, or a failure where zod would throw). Each parser's
    contract ties the two together. Keys that a schema does not name are
    allowed and ignored, as zod's objects strip them. */
module Schemas {
  import opened Options
  import opened Json
  import opened Dto

  // ---------------------------------------------------------------------
  // Shape rules
  // ---------------------------------------------------------------------

  /** `z.enum(E)`: a string that is one of the enumeration's members. */
  predicate IsMember(j: Json, members: set<string>) {
    j.JString? && j.str in members
  }

  /** `z.enum(E).or(z.null())`. */
  predicate IsMemberOrNull(j: Json, members: set<string>) {
    j.JNull? || IsMember(j, members)
  }

  predicate HasString(j: Json, key: string) {
    j.JObject? && key in j.fields && j.fields[key].JString?
  }

  predicate HasNumber(j: Json, key: string) {
    j.JObject? && key in j.fields && j.fields[key].JNumber?
  }

  predicate HasMember(j: Json, key: string, members: set<string>) {
    j.JObject? && key in j.fields && IsMember(j.fields[key], members)
  }

  predicate HasMemberOrNull(j: Json, key: string, members: set<string>) {
    j.JObject? && key in j.fields && IsMemberOrNull(j.fields[key], members)
  }

  predicate HasArray(j: Json, key: string) {
    j.JObject? && key in j.fields && j.fields[key].JArray?
  }

  /** The elements of the array under `key` (empty when there is none). */
  function ItemsAt(j: Json, key: string): seq<Json> {
    if HasArray(j, key) then j.fields[key].items else []
  }

  /** The value under `key` (`null` when there is none). */
  function ValueAt(j: Json, key: string): Json {
    if j.JObject? && key in j.fields then j.fields[key] else JNull
  }

  /** DwellerCardDtoSchema. */
  predicate ValidDwellerCardDto(v: Vocabulary, j: Json) {
    HasString(j, "name")
    && HasMember(j, "gameBox", v.gameBoxes)
    && HasMemberOrNull(j, "treeSymbol", v.treeSymbols)
    && HasMember(j, "position", v.positions)
  }

  /** WoodyPlantCardDtoSchema: one bad dweller rejects the whole card. */
  predicate ValidWoodyPlantCardDto(v: Vocabulary, j: Json) {
    HasString(j, "name")
    && HasMember(j, "gameBox", v.gameBoxes)
    && HasMemberOrNull(j, "treeSymbol", v.treeSymbols)
    && HasArray(j, "dwellers")
    && forall i :: 0 <= i < |ItemsAt(j, "dwellers")| ==> ValidDwellerCardDto(v, ItemsAt(j, "dwellers")[i])
  }

  /** CaveDtoSchema. */
  predicate ValidCaveDto(j: Json) {
    HasString(j, "name") && HasNumber(j, "cardCount")
  }

  /** ForestDtoSchema. */
  predicate ValidForestDto(v: Vocabulary, j: Json) {
    HasArray(j, "woodyPlants")
    && (forall i :: 0 <= i < |ItemsAt(j, "woodyPlants")| ==> ValidWoodyPlantCardDto(v, ItemsAt(j, "woodyPlants")[i]))
    && j.JObject? && "cave" in j.fields && ValidCaveDto(ValueAt(j, "cave"))
  }

  /** PlayerDtoSchema. */
  predicate ValidPlayerDto(v: Vocabulary, j: Json) {
    HasString(j, "name")
    && j.JObject? && "forest" in j.fields && ValidForestDto(v, ValueAt(j, "forest"))
  }

  /** PlayerExportDtoSchema. */
  predicate ValidPlayerExportDto(v: Vocabulary, j: Json) {
    HasString(j, "appVersion")
    && HasArray(j, "gameBoxes")
    && (forall i :: 0 <= i < |ItemsAt(j, "gameBoxes")| ==> IsMember(ItemsAt(j, "gameBoxes")[i], v.gameBoxes))
    && j.JObject? && "player" in j.fields && ValidPlayerDto(v, ValueAt(j, "player"))
  }

  /** GameDtoSchema. */
  predicate ValidGameDto(v: Vocabulary, j: Json) {
    HasString(j, "appVersion")
    && HasString(j, "id")
    && HasArray(j, "gameBoxes")
    && (forall i :: 0 <= i < |ItemsAt(j, "gameBoxes")| ==> IsMember(ItemsAt(j, "gameBoxes")[i], v.gameBoxes))
    && HasMember(j, "scoringMode", v.scoringModes)
    && HasArray(j, "players")
    && (forall i :: 0 <= i < |ItemsAt(j, "players")| ==> ValidPlayerDto(v, ItemsAt(j, "players")[i]))
  }

  // ---------------------------------------------------------------------
  // Parsers
  // ---------------------------------------------------------------------

  function StringAt(j: Json, key: string): (r: Option<string>)
    ensures r.Some? <==> HasString(j, key)
    ensures r.Some? ==> ValueAt(j, key) == JString(r.value)
  {
    if HasString(j, key) then Some(j.fields[key].str) else None
  }

  function NumberAt(j: Json, key: string): (r: Option<int>)
    ensures r.Some? <==> HasNumber(j, key)
    ensures r.Some? ==> ValueAt(j, key) == JNumber(r.value)
  {
    if HasNumber(j, key) then Some(j.fields[key].n) else None
  }

  function MemberAt(j: Json, key: string, members: set<string>): (r: Option<string>)
    ensures r.Some? <==> HasMember(j, key, members)
    ensures r.Some? ==> r.value in members && ValueAt(j, key) == JString(r.value)
  {
    if HasMember(j, key, members) then Some(j.fields[key].str) else None
  }

  function MemberOrNullAt(j: Json, key: string, members: set<string>): (r: Option<Option<string>>)
    ensures r.Some? <==> HasMemberOrNull(j, key, members)
    ensures r == Some(None) ==> ValueAt(j, key) == JNull
    ensures r.Some? && r.value.Some? ==> r.value.value in members && ValueAt(j, key) == JString(r.value.value)
  {
    if !HasMemberOrNull(j, key, members) then None
    else if j.fields[key].JNull? then Some(None)
    else Some(Some(j.fields[key].str))
  }

  /** `z.array(schema)` applied to the elements: every element must parse. */
  function ParseItems<T>(items: seq<Json>, parse: Json -> Option<T>): (r: Option<seq<T>>)
    ensures r.Some? <==> forall i :: 0 <= i < |items| ==> parse(items[i]).Some?
    ensures r.Some? ==> |r.value| == |items|
    ensures r.Some? ==> forall i :: 0 <= i < |items| ==> parse(items[i]) == Some(r.value[i])
  {
    if items == [] then Some([])
    else
      match (parse(items[0]), ParseItems(items[1..], parse))
      case (Some(x), Some(xs)) => Some([x] + xs)
      case _ =>
        assert forall i :: 1 <= i < |items| ==> items[i] == items[1..][i - 1];
        None
  }

  function ArrayAt<T>(j: Json, key: string, parse: Json -> Option<T>): (r: Option<seq<T>>)
    ensures r.Some? <==> HasArray(j, key) && forall i :: 0 <= i < |ItemsAt(j, key)| ==> parse(ItemsAt(j, key)[i]).Some?
    ensures r.Some? ==> |r.value| == |ItemsAt(j, key)|
    ensures r.Some? ==> forall i :: 0 <= i < |ItemsAt(j, key)| ==> parse(ItemsAt(j, key)[i]) == Some(r.value[i])
  {
    if HasArray(j, key) then
      assert ItemsAt(j, key) == j.fields[key].items;
      ParseItems(j.fields[key].items, parse)
    else None
  }

  /** The JSON form of an optional string: the string, or `null`. */
  function StringOrNull(s: Option<string>): Json {
    if s.Some? then JString(s.value) else JNull
  }

  function ParseMember(members: set<string>, j: Json): (r: Option<string>)
    ensures r.Some? <==> IsMember(j, members)
    ensures r.Some? ==> j == JString(r.value)
  {
    if IsMember(j, members) then Some(j.str) else None
  }

  function ParseDwellerCardDto(v: Vocabulary, j: Json): (r: Option<DwellerCardDto>)
    ensures r.Some? <==> ValidDwellerCardDto(v, j)
    ensures r.Some? ==>
              ValueAt(j, "name") == JString(r.value.name) && ValueAt(j, "gameBox") == JString(r.value.gameBox)
              && ValueAt(j, "treeSymbol") == StringOrNull(r.value.treeSymbol)
              && ValueAt(j, "position") == JString(r.value.position)
  {
    match (StringAt(j, "name"), MemberAt(j, "gameBox", v.gameBoxes),
           MemberOrNullAt(j, "treeSymbol", v.treeSymbols), MemberAt(j, "position", v.positions))
    case (Some(name), Some(gameBox), Some(treeSymbol), Some(position)) =>
      Some(DwellerCardDto(name, gameBox, treeSymbol, position))
    case _ => None
  }

  function ParseWoodyPlantCardDto(v: Vocabulary, j: Json): (r: Option<WoodyPlantCardDto>)
    ensures r.Some? <==> ValidWoodyPlantCardDto(v, j)
    ensures r.Some? ==>
              ValueAt(j, "name") == JString(r.value.name) && ValueAt(j, "gameBox") == JString(r.value.gameBox)
              && ValueAt(j, "treeSymbol") == StringOrNull(r.value.treeSymbol)
    ensures r.Some? ==> |r.value.dwellers| == |ItemsAt(j, "dwellers")|
    ensures r.Some? ==>
              forall i :: 0 <= i < |ItemsAt(j, "dwellers")| ==>
                ParseDwellerCardDto(v, ItemsAt(j, "dwellers")[i]) == Some(r.value.dwellers[i])
  {
    match (StringAt(j, "name"), MemberAt(j, "gameBox", v.gameBoxes),
           MemberOrNullAt(j, "treeSymbol", v.treeSymbols),
           ArrayAt(j, "dwellers", d => ParseDwellerCardDto(v, d)))
    case (Some(name), Some(gameBox), Some(treeSymbol), Some(dwellers)) =>
      Some(WoodyPlantCardDto(name, gameBox, treeSymbol, dwellers))
    case _ => None
  }

  function ParseCaveDto(j: Json): (r: Option<CaveDto>)
    ensures r.Some? <==> ValidCaveDto(j)
    ensures r.Some? ==> ValueAt(j, "name") == JString(r.value.name) && ValueAt(j, "cardCount") == JNumber(r.value.cardCount)
  {
    match (StringAt(j, "name"), NumberAt(j, "cardCount"))
    case (Some(name), Some(cardCount)) => Some(CaveDto(name, cardCount))
    case _ => None
  }

  function ParseForestDto(v: Vocabulary, j: Json): (r: Option<ForestDto>)
    ensures r.Some? <==> ValidForestDto(v, j)
    ensures r.Some? ==> ParseCaveDto(ValueAt(j, "cave")) == Some(r.value.cave)
    ensures r.Some? ==> |r.value.woodyPlants| == |ItemsAt(j, "woodyPlants")|
    ensures r.Some? ==>
              forall i :: 0 <= i < |ItemsAt(j, "woodyPlants")| ==>
                ParseWoodyPlantCardDto(v, ItemsAt(j, "woodyPlants")[i]) == Some(r.value.woodyPlants[i])
  {
    match (ArrayAt(j, "woodyPlants", w => ParseWoodyPlantCardDto(v, w)),
           if j.JObject? && "cave" in j.fields then ParseCaveDto(j.fields["cave"]) else None)
    case (Some(woodyPlants), Some(cave)) => Some(ForestDto(woodyPlants, cave))
    case _ => None
  }

  function ParsePlayerDto(v: Vocabulary, j: Json): (r: Option<PlayerDto>)
    ensures r.Some? <==> ValidPlayerDto(v, j)
    ensures r.Some? ==>
              ValueAt(j, "name") == JString(r.value.name) && ParseForestDto(v, ValueAt(j, "forest")) == Some(r.value.forest)
  {
    match (StringAt(j, "name"),
           if j.JObject? && "forest" in j.fields then ParseForestDto(v, j.fields["forest"]) else None)
    case (Some(name), Some(forest)) => Some(PlayerDto(name, forest))
    case _ => None
  }

  /** `z.array(z.enum(GameBox))` under the key "gameBoxes". */
  function GameBoxesAt(v: Vocabulary, j: Json): (r: Option<seq<string>>)
    ensures r.Some? <==>
              HasArray(j, "gameBoxes")
              && forall i :: 0 <= i < |ItemsAt(j, "gameBoxes")| ==> IsMember(ItemsAt(j, "gameBoxes")[i], v.gameBoxes)
    ensures r.Some? ==>
              |r.value| == |ItemsAt(j, "gameBoxes")|
              && forall i :: 0 <= i < |ItemsAt(j, "gameBoxes")| ==>
                   ItemsAt(j, "gameBoxes")[i] == JString(r.value[i]) && r.value[i] in v.gameBoxes
  {
    ArrayAt(j, "gameBoxes", g => ParseMember(v.gameBoxes, g))
  }

  /** `PlayerExportDtoSchema.parse`. */
  function ParsePlayerExportDto(v: Vocabulary, j: Json): (r: Option<PlayerExportDto>)
    ensures r.Some? <==> ValidPlayerExportDto(v, j)
    ensures r.Some? ==> ValueAt(j, "appVersion") == JString(r.value.appVersion)
    ensures r.Some? ==> forall g :: g in r.value.gameBoxes ==> g in v.gameBoxes
    ensures r.Some? ==>
              |r.value.gameBoxes| == |ItemsAt(j, "gameBoxes")|
              && forall i :: 0 <= i < |ItemsAt(j, "gameBoxes")| ==> ItemsAt(j, "gameBoxes")[i] == JString(r.value.gameBoxes[i])
    ensures r.Some? ==> ParsePlayerDto(v, ValueAt(j, "player")) == Some(r.value.player)
  {
    match (StringAt(j, "appVersion"), GameBoxesAt(v, j),
           if j.JObject? && "player" in j.fields then ParsePlayerDto(v, j.fields["player"]) else None)
    case (Some(appVersion), Some(gameBoxes), Some(player)) => Some(PlayerExportDto(appVersion, gameBoxes, player))
    case _ => None
  }

  /** `GameDtoSchema.parse`. */
  function ParseGameDto(v: Vocabulary, j: Json): (r: Option<GameDto>)
    ensures r.Some? <==> ValidGameDto(v, j)
    ensures r.Some? ==> ValueAt(j, "appVersion") == JString(r.value.appVersion)
    ensures r.Some? ==> ValueAt(j, "id") == JString(r.value.id)
    ensures r.Some? ==> r.value.scoringMode in v.scoringModes && ValueAt(j, "scoringMode") == JString(r.value.scoringMode)
    ensures r.Some? ==>
              |r.value.gameBoxes| == |ItemsAt(j, "gameBoxes")|
              && forall i :: 0 <= i < |ItemsAt(j, "gameBoxes")| ==> ItemsAt(j, "gameBoxes")[i] == JString(r.value.gameBoxes[i])
    ensures r.Some? ==> |r.value.players| == |ItemsAt(j, "players")|
    ensures r.Some? ==>
              forall i :: 0 <= i < |ItemsAt(j, "players")| ==>
                ParsePlayerDto(v, ItemsAt(j, "players")[i]) == Some(r.value.players[i])
  {
    match (StringAt(j, "appVersion"), StringAt(j, "id"),
           GameBoxesAt(v, j),
           MemberAt(j, "scoringMode", v.scoringModes),
           ArrayAt(j, "players", p => ParsePlayerDto(v, p)))
    case (Some(appVersion), Some(id), Some(gameBoxes), Some(scoringMode), Some(players)) =>
      Some(GameDto(appVersion, id, gameBoxes, scoringMode, players))
    case _ => None
  }
}
