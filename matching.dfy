/** Matching a transfer object to a card of the deck (findWoodyPlantOfDto,
    findDwellerOfDto and findCaveOfDto in src/game/sharing/import.ts). */
module Matching {
  import opened Options
  import opened Dto
  import opened GameTypes

  /** `Array.prototype.find`: the first element that satisfies `p`. */
  function Find<T>(s: seq<T>, p: T -> bool): (r: Option<T>)
    ensures r.None? <==> forall i :: 0 <= i < |s| ==> !p(s[i])
    ensures r.Some? ==> exists i :: 0 <= i < |s| && s[i] == r.value && p(s[i]) && forall j :: 0 <= j < i ==> !p(s[j])
  {
    if s == [] then None
    else if p(s[0]) then Some(s[0])
    else
      var r := Find(s[1..], p);
      assert forall i :: 1 <= i < |s| ==> s[i] == s[1..][i - 1];
      r
  }

  /** `alreadyFoundCards.some((found) => found.id === id)`. */
  predicate Claimed<C>(found: seq<C>, idOf: C -> CardId, id: CardId) {
    exists i :: 0 <= i < |found| && idOf(found[i]) == id
  }

  predicate DwellerMatches(c: DwellerCard, dto: DwellerCardDto) {
    c.name == dto.name && c.gameBox == dto.gameBox && c.treeSymbol == dto.treeSymbol
    && c.position == dto.position
  }

  predicate WoodyPlantMatches(c: WoodyPlantCard, dto: WoodyPlantCardDto) {
    c.name == dto.name && c.gameBox == dto.gameBox && c.treeSymbol == dto.treeSymbol
  }

  /** A pool card the dweller DTO may claim: equal on every attribute and not
      already claimed in this pass. */
  predicate DwellerEligible(c: DwellerCard, dto: DwellerCardDto, found: seq<DwellerCard>) {
    DwellerMatches(c, dto) && !Claimed(found, IdOfDweller, c.id)
  }

  predicate WoodyPlantEligible(c: WoodyPlantCard, dto: WoodyPlantCardDto, found: seq<WoodyPlantCard>) {
    WoodyPlantMatches(c, dto) && !Claimed(found, IdOfWoodyPlant, c.id)
  }

  /** findDwellerOfDto: the first eligible dweller of the pool; dwellers have
      no catalog fallback. */
  function FindDwellerOfDto(pool: seq<DwellerCard>, dto: DwellerCardDto, found: seq<DwellerCard>): (r: Option<DwellerCard>)
    ensures r.None? <==> forall c :: c in pool ==> !DwellerEligible(c, dto, found)
    ensures r.Some? ==> exists i :: 0 <= i < |pool| && pool[i] == r.value
                          && DwellerEligible(r.value, dto, found)
                          && forall j :: 0 <= j < i ==> !DwellerEligible(pool[j], dto, found)
  {
    Find(pool, (c: DwellerCard) => DwellerEligible(c, dto, found))
  }

  /** findCaveOfDto: the first cave of the deck with the DTO's name; the DTO's
      card count plays no part. */
  function FindCaveOfDto(caves: seq<Cave>, dto: CaveDto): (r: Option<Cave>)
    ensures r.None? <==> forall c :: c in caves ==> c.name != dto.name
    ensures r.Some? ==> exists i :: 0 <= i < |caves| && caves[i] == r.value && r.value.name == dto.name
                          && forall j :: 0 <= j < i ==> caves[j].name != dto.name
  {
    Find(caves, (c: Cave) => c.name == dto.name)
  }

  /** The catalog offers an unlimited instance for the DTO: the first
      blueprint with the DTO's name is flagged `isPartOfDeck === false` and
      has a variant with the DTO's game box and tree symbol. */
  predicate CatalogOffers(catalog: seq<Blueprint>, dto: WoodyPlantCardDto) {
    exists i :: 0 <= i < |catalog| && catalog[i].name == dto.name
      && (forall j :: 0 <= j < i ==> catalog[j].name != dto.name)
      && catalog[i].isPartOfDeck == Some(false)
      && exists v :: v in catalog[i].variants && v.gameBox == dto.gameBox && v.treeSymbol == dto.treeSymbol
  }

  /** What findWoodyPlantOfDto yields, with the id supply after the call
      (a catalog instance consumes one fresh id). */
  datatype Lookup = Lookup(card: Option<WoodyPlantCard>, nextId: nat)

  /** findWoodyPlantOfDto: the first eligible woody plant of the pool; failing
      that, a fresh instance from the catalog when the catalog offers one. */
  function FindWoodyPlantOfDto(pool: seq<WoodyPlantCard>, dto: WoodyPlantCardDto, found: seq<WoodyPlantCard>,
                               catalog: seq<Blueprint>, nextId: nat): (r: Lookup)
    ensures (exists c :: c in pool && WoodyPlantEligible(c, dto, found)) ==>
              r.nextId == nextId && r.card.Some?
              && exists i :: 0 <= i < |pool| && pool[i] == r.card.value
                   && WoodyPlantEligible(r.card.value, dto, found)
                   && forall j :: 0 <= j < i ==> !WoodyPlantEligible(pool[j], dto, found)
    ensures (forall c :: c in pool ==> !WoodyPlantEligible(c, dto, found)) ==>
              (r.card.Some? <==> CatalogOffers(catalog, dto))
              && (r.card.Some? ==> r.card.value.id == nextId && r.card.value.dwellers == map[] && r.nextId == nextId + 1)
              && (r.card.None? ==> r.nextId == nextId)
    ensures r.card.Some? ==> WoodyPlantMatches(r.card.value, dto)
  {
    match Find(pool, (c: WoodyPlantCard) => WoodyPlantEligible(c, dto, found))
    case Some(w) => Lookup(Some(w), nextId)
    case None =>
      match Find(catalog, (b: Blueprint) => b.name == dto.name)
      case None => Lookup(None, nextId)
      case Some(blueprint) =>
        match Find(blueprint.variants, (v: Variant) => v.gameBox == dto.gameBox && v.treeSymbol == dto.treeSymbol)
        case Some(variant) =>
          if blueprint.isPartOfDeck == Some(false) then Lookup(Some(CreateWoodyPlant(nextId, blueprint, variant)), nextId + 1)
          else Lookup(None, nextId)
        case None => Lookup(None, nextId)
  }
}
