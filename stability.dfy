/** When importPlayerData succeeds, independently of the order of the DTOs.
    A woody-plant DTO can be served by any pool card with its name, game
    box and tree symbol (its key), or, failing that, by the catalog; a
    dweller DTO by any pool card equal to it. So the import succeeds exactly
    when the cave is there and, key by key, the pools hold as many cards as
    the DTOs ask for (a key the catalog offers asks for nothing). That count
    ignores order: reordering the woody-plant DTOs, or the dweller DTOs of
    one of them, never changes whether the import succeeds. */
module Stability {
  import opened Options
  import opened Dto
  import opened GameTypes
  import opened Matching
  import opened Reconcile
  import opened PassFacts
  import opened ForestFacts
  import opened MissFacts

  /** What a woody-plant DTO is matched on. */
  datatype PlantKey = PlantKey(name: string, gameBox: string, treeSymbol: Option<string>)

  function KeyOfPlant(c: WoodyPlantCard): PlantKey {
    PlantKey(c.name, c.gameBox, c.treeSymbol)
  }

  function KeyOfPlantDto(dto: WoodyPlantCardDto): PlantKey {
    PlantKey(dto.name, dto.gameBox, dto.treeSymbol)
  }

  /** A dweller card is matched on all four of its DTO's attributes, so its
      key is the DTO it matches. */
  function KeyOfDweller(c: DwellerCard): DwellerCardDto {
    DwellerCardDto(c.name, c.gameBox, c.treeSymbol, c.position)
  }

  /** The keys of the woody-plant DTOs, in order. */
  function PlantKeys(dtos: seq<WoodyPlantCardDto>): (keys: seq<PlantKey>)
    ensures |keys| == |dtos| && forall i :: 0 <= i < |dtos| ==> keys[i] == KeyOfPlantDto(dtos[i])
    decreases |dtos|
  {
    if dtos == [] then [] else [KeyOfPlantDto(dtos[0])] + PlantKeys(dtos[1..])
  }

  /** How many cards of `pool` have key `k`. */
  function CountKey<C, K(==)>(pool: seq<C>, keyOf: C -> K, k: K): nat
    decreases |pool|
  {
    if pool == [] then 0 else (if keyOf(pool[0]) == k then 1 else 0) + CountKey(pool[1..], keyOf, k)
  }

  /** Every key asked for is unlimited, or `pool` holds at least as many
      cards with that key as it is asked for. */
  predicate Enough<C, K(==)>(pool: seq<C>, keyOf: C -> K, unlimited: K -> bool, asked: multiset<K>) {
    forall k :: k in asked ==> unlimited(k) || asked[k] <= CountKey(pool, keyOf, k)
  }

  /** The catalog offers an unlimited instance of every woody plant with key `k`. */
  predicate OffersKey(catalog: seq<Blueprint>, k: PlantKey) {
    CatalogOffers(catalog, WoodyPlantCardDto(k.name, k.gameBox, k.treeSymbol, []))
  }

  predicate PlantsAvailable(catalog: seq<Blueprint>, pool: seq<WoodyPlantCard>, asked: multiset<PlantKey>) {
    Enough(pool, KeyOfPlant, k => OffersKey(catalog, k), asked)
  }

  predicate DwellersAvailable(pool: seq<DwellerCard>, asked: multiset<DwellerCardDto>) {
    Enough(pool, KeyOfDweller, (d: DwellerCardDto) => false, asked)
  }

  lemma OffersKeyOfDto(catalog: seq<Blueprint>, dto: WoodyPlantCardDto)
    ensures OffersKey(catalog, KeyOfPlantDto(dto)) <==> CatalogOffers(catalog, dto)
  {
  }

  lemma CountCons<C, K>(c: C, rest: seq<C>, keyOf: C -> K, k: K)
    ensures CountKey([c] + rest, keyOf, k) == (if keyOf(c) == k then 1 else 0) + CountKey(rest, keyOf, k)
  {
    assert ([c] + rest)[0] == c && ([c] + rest)[1..] == rest;
  }

  /** A pool with no card of key `k` counts none. */
  lemma {:induction false} CountNone<C, K>(pool: seq<C>, keyOf: C -> K, k: K)
    requires forall c :: c in pool ==> keyOf(c) != k
    ensures CountKey(pool, keyOf, k) == 0
    decreases |pool|
  {
    if pool != [] {
      assert forall c :: c in pool[1..] ==> c in pool;
      CountNone(pool[1..], keyOf, k);
    }
  }

  /** Distinct ids stay distinct in the rest of the pool, and none of them is the first card's. */
  lemma DistinctTail<C>(pool: seq<C>, idOf: C -> CardId)
    requires pool != [] && DistinctIds(pool, idOf)
    ensures DistinctIds(pool[1..], idOf)
    ensures forall c :: c in pool[1..] ==> idOf(c) != idOf(pool[0])
  {
    forall i, j | 0 <= i < j < |pool[1..]|
      ensures idOf(pool[1..][i]) != idOf(pool[1..][j])
    {
      assert pool[1..][i] == pool[i + 1] && pool[1..][j] == pool[j + 1];
    }
    forall c | c in pool[1..]
      ensures idOf(c) != idOf(pool[0])
    {
      var j :| 0 <= j < |pool[1..]| && pool[1..][j] == c;
      assert pool[j + 1] == c;
    }
  }

  lemma DistinctCons<C>(c: C, rest: seq<C>, idOf: C -> CardId)
    requires DistinctIds(rest, idOf) && forall x :: x in rest ==> idOf(x) != idOf(c)
    ensures DistinctIds([c] + rest, idOf)
  {
    forall i, j | 0 <= i < j < |[c] + rest|
      ensures idOf(([c] + rest)[i]) != idOf(([c] + rest)[j])
    {
      assert ([c] + rest)[j] == rest[j - 1];
      if i > 0 {
        assert ([c] + rest)[i] == rest[i - 1];
      } else {
        assert rest[j - 1] in rest;
      }
    }
  }

  /** Filtering keeps ids distinct. */
  lemma {:induction false} DistinctWithout<C(!new)>(pool: seq<C>, ids: set<CardId>, idOf: C -> CardId)
    requires DistinctIds(pool, idOf)
    ensures DistinctIds(WithoutIds(pool, ids, idOf), idOf)
    decreases |pool|
  {
    if pool != [] {
      DistinctTail(pool, idOf);
      DistinctWithout(pool[1..], ids, idOf);
      if idOf(pool[0]) !in ids {
        DistinctCons(pool[0], WithoutIds(pool[1..], ids, idOf), idOf);
      }
    }
  }

  /** Filtering out ids no card has changes nothing. */
  lemma {:induction false} WithoutAbsent<C(!new)>(pool: seq<C>, ids: set<CardId>, idOf: C -> CardId)
    requires forall c :: c in pool ==> idOf(c) !in ids
    ensures WithoutIds(pool, ids, idOf) == pool
    decreases |pool|
  {
    if pool != [] {
      assert forall c :: c in pool[1..] ==> c in pool;
      WithoutAbsent(pool[1..], ids, idOf);
      ConsAppend(pool, []);
    }
  }

  /** Taking a card out of a pool with distinct ids lowers the count of its
      key by one and leaves every other count alone. */
  lemma {:induction false} CountWithout<C(!new), K>(pool: seq<C>, c: C, idOf: C -> CardId, keyOf: C -> K, k: K)
    requires c in pool && DistinctIds(pool, idOf)
    ensures CountKey(WithoutIds(pool, {idOf(c)}, idOf), keyOf, k) + (if keyOf(c) == k then 1 else 0)
         == CountKey(pool, keyOf, k)
    decreases |pool|
  {
    DistinctTail(pool, idOf);
    var j :| 0 <= j < |pool| && pool[j] == c;
    if j == 0 {
      CountWithoutFirst(pool, idOf, keyOf, k);
    } else {
      assert pool[1..][j - 1] == c;
      CountWithout(pool[1..], c, idOf, keyOf, k);
      CountWithoutLater(pool, c, idOf, keyOf, k);
    }
  }

  lemma CountWithoutFirst<C(!new), K>(pool: seq<C>, idOf: C -> CardId, keyOf: C -> K, k: K)
    requires pool != [] && forall x :: x in pool[1..] ==> idOf(x) != idOf(pool[0])
    ensures CountKey(WithoutIds(pool, {idOf(pool[0])}, idOf), keyOf, k) + (if keyOf(pool[0]) == k then 1 else 0)
         == CountKey(pool, keyOf, k)
  {
    var ids := {idOf(pool[0])};
    WithoutAbsent(pool[1..], ids, idOf);
    assert WithoutIds(pool, ids, idOf) == [] + WithoutIds(pool[1..], ids, idOf);
    assert [] + pool[1..] == pool[1..];
  }

  lemma CountWithoutLater<C(!new), K>(pool: seq<C>, c: C, idOf: C -> CardId, keyOf: C -> K, k: K)
    requires pool != [] && idOf(pool[0]) != idOf(c)
    ensures CountKey(WithoutIds(pool, {idOf(c)}, idOf), keyOf, k)
         == (if keyOf(pool[0]) == k then 1 else 0) + CountKey(WithoutIds(pool[1..], {idOf(c)}, idOf), keyOf, k)
  {
    CountCons(pool[0], WithoutIds(pool[1..], {idOf(c)}, idOf), keyOf, k);
  }

  /** One card of key `k` less in the pool is exactly one request for `k` more. */
  lemma TakeKey<C, K>(pool: seq<C>, pool1: seq<C>, keyOf: C -> K, unlimited: K -> bool, k: K, later: multiset<K>)
    requires forall e :: CountKey(pool1, keyOf, e) + (if e == k then 1 else 0) == CountKey(pool, keyOf, e)
    ensures Enough(pool1, keyOf, unlimited, later) <==> Enough(pool, keyOf, unlimited, multiset{k} + later)
  {
    if Enough(pool1, keyOf, unlimited, later) {
      forall e | e in multiset{k} + later
        ensures unlimited(e) || (multiset{k} + later)[e] <= CountKey(pool, keyOf, e)
      {
        assert CountKey(pool1, keyOf, e) + (if e == k then 1 else 0) == CountKey(pool, keyOf, e);
      }
    }
    if Enough(pool, keyOf, unlimited, multiset{k} + later) {
      forall e | e in later
        ensures unlimited(e) || later[e] <= CountKey(pool1, keyOf, e)
      {
        assert CountKey(pool1, keyOf, e) + (if e == k then 1 else 0) == CountKey(pool, keyOf, e);
        assert e in multiset{k} + later;
      }
    }
  }

  /** A request for an unlimited key costs nothing. */
  lemma TakeUnlimited<C, K>(pool: seq<C>, keyOf: C -> K, unlimited: K -> bool, k: K, later: multiset<K>)
    requires unlimited(k)
    ensures Enough(pool, keyOf, unlimited, later) <==> Enough(pool, keyOf, unlimited, multiset{k} + later)
  {
    if Enough(pool, keyOf, unlimited, later) {
      forall e | e in multiset{k} + later
        ensures unlimited(e) || (multiset{k} + later)[e] <= CountKey(pool, keyOf, e)
      {
        if e != k {
          assert e in later;
        }
      }
    }
    if Enough(pool, keyOf, unlimited, multiset{k} + later) {
      forall e | e in later
        ensures unlimited(e) || later[e] <= CountKey(pool, keyOf, e)
      {
        assert e in multiset{k} + later;
      }
    }
  }

  /** A request for a limited key no card has can never be met. */
  lemma TakeMissing<C, K>(pool: seq<C>, keyOf: C -> K, unlimited: K -> bool, k: K, later: multiset<K>)
    requires !unlimited(k) && CountKey(pool, keyOf, k) == 0
    ensures !Enough(pool, keyOf, unlimited, multiset{k} + later)
  {
    assert k in multiset{k} + later;
  }

  /** What keeps the dweller side countable: no pool dweller is claimed,
      and pool ids are distinct. */
  ghost predicate DwellerInv(catalog: seq<Blueprint>, p: Pass) {
    MissesJustified(catalog, p) && DistinctIds(p.deck.dwellers, IdOfDweller)
  }

  /** One dweller lookup, with `later` the requests still to come: it finds
      a card and the rest can be served exactly when the pool can serve it
      together with the rest. */
  lemma DwellerStepAvailable(catalog: seq<Blueprint>, p: Pass, w: WoodyPlantCard, dto: DwellerCardDto,
                             later: multiset<DwellerCardDto>)
    requires DwellerInv(catalog, p)
    ensures var p1 := DwellerStep(p, w, dto).0;
      DwellerInv(catalog, p1)
      && ((|p1.unavailableDwellers| == |p.unavailableDwellers| && DwellersAvailable(p1.deck.dwellers, later))
          <==> DwellersAvailable(p.deck.dwellers, multiset{dto} + later))
  {
    DwellerStepJustified(catalog, p, w, dto);
    var found := FindDwellerOfDto(p.deck.dwellers, dto, p.dwellers);
    var p1 := DwellerStep(p, w, dto).0;
    if found.None? {
      forall c | c in p.deck.dwellers
        ensures KeyOfDweller(c) != dto
      {
        assert !DwellerEligible(c, dto, p.dwellers);
      }
      CountNone(p.deck.dwellers, KeyOfDweller, dto);
      TakeMissing(p.deck.dwellers, KeyOfDweller, (d: DwellerCardDto) => false, dto, later);
    } else {
      var d := found.value;
      assert KeyOfDweller(d) == dto && d in p.deck.dwellers;
      assert p1.deck.dwellers == WithoutIds(p.deck.dwellers, {d.id}, IdOfDweller);
      DistinctWithout(p.deck.dwellers, {d.id}, IdOfDweller);
      forall e
        ensures CountKey(p1.deck.dwellers, KeyOfDweller, e) + (if e == dto then 1 else 0)
             == CountKey(p.deck.dwellers, KeyOfDweller, e)
      {
        CountWithout(p.deck.dwellers, d, IdOfDweller, KeyOfDweller, e);
      }
      TakeKey(p.deck.dwellers, p1.deck.dwellers, KeyOfDweller, (d: DwellerCardDto) => false, dto, later);
    }
  }

  /** The dweller loop of one woody plant: every lookup finds a card, and
      `later` can then be served, exactly when the pool can serve the loop's
      DTOs and `later` together. */
  lemma {:induction false} PlaceDwellersAvailable(catalog: seq<Blueprint>, p: Pass, w: WoodyPlantCard,
                                                  dtos: seq<DwellerCardDto>, later: multiset<DwellerCardDto>)
    requires DwellerInv(catalog, p)
    ensures var r := PlaceDwellers(p, w, dtos).0;
      DwellerInv(catalog, r)
      && ((|r.unavailableDwellers| == |p.unavailableDwellers| && DwellersAvailable(r.deck.dwellers, later))
          <==> DwellersAvailable(p.deck.dwellers, multiset(dtos) + later))
    decreases |dtos|
  {
    if dtos == [] {
      assert multiset(dtos) + later == later;
    } else {
      var (p1, w1) := DwellerStep(p, w, dtos[0]);
      var rest := multiset(dtos[1..]) + later;
      DwellerStepAvailable(catalog, p, w, dtos[0], rest);
      PlaceDwellersAvailable(catalog, p1, w1, dtos[1..], later);
      DwellerStepFrame(p, w, dtos[0]);
      PlaceDwellersFrame(p1, w1, dtos[1..]);
      MultisetCons(dtos, later);
    }
  }

  lemma MultisetCons<T>(s: seq<T>, later: multiset<T>)
    requires s != []
    ensures multiset(s) + later == multiset{s[0]} + (multiset(s[1..]) + later)
  {
    assert s == [s[0]] + s[1..];
  }

  /** What keeps the woody-plant side countable: no pool card is claimed,
      pool ids are distinct, and the id supply has not reached any of them. */
  ghost predicate PlantInv(catalog: seq<Blueprint>, p: Pass) {
    MissesJustified(catalog, p) && DistinctIds(p.deck.woodyPlants, IdOfWoodyPlant)
    && IdsBelow(p.deck.woodyPlants, p.nextId)
  }

  /** What one turn of the woody-plant loop does to the woody-plant side:
      it finds a card, and `later` can then be served, exactly when the pool
      and the catalog can serve its DTO together with `later`. */
  ghost predicate PlantStepServes(catalog: seq<Blueprint>, p: Pass, dto: WoodyPlantCardDto, later: multiset<PlantKey>) {
    var q := PlantStep(catalog, p, dto);
    PlantInv(catalog, q)
    && ((|q.unavailableWoodyPlants| == |p.unavailableWoodyPlants| && PlantsAvailable(catalog, q.deck.woodyPlants, later))
        <==> PlantsAvailable(catalog, p.deck.woodyPlants, multiset{KeyOfPlantDto(dto)} + later))
  }

  lemma PlantStepAvailable(catalog: seq<Blueprint>, p: Pass, dto: WoodyPlantCardDto, later: multiset<PlantKey>)
    requires PlantInv(catalog, p)
    ensures PlantStepServes(catalog, p, dto, later)
  {
    var found := FindWoodyPlantOfDto(p.deck.woodyPlants, dto, p.woodyPlants, catalog, p.nextId);
    if exists c :: c in p.deck.woodyPlants && WoodyPlantEligible(c, dto, p.woodyPlants) {
      PlantStepFromPool(catalog, p, dto, later);
    } else if found.card.Some? {
      PlantStepMinted(catalog, p, dto, later);
    } else {
      PlantStepMissing(catalog, p, dto, later);
    }
  }

  /** No pool card and no catalog instance: the DTO is listed, and the
      request for its key cannot be met. */
  lemma PlantStepMissing(catalog: seq<Blueprint>, p: Pass, dto: WoodyPlantCardDto, later: multiset<PlantKey>)
    requires PlantInv(catalog, p)
    requires FindWoodyPlantOfDto(p.deck.woodyPlants, dto, p.woodyPlants, catalog, p.nextId).card.None?
    ensures PlantStepServes(catalog, p, dto, later)
  {
    PlantStepJustified(catalog, p, dto);
    PlantStepFacts(catalog, p, dto);
    var k := KeyOfPlantDto(dto);
    forall c | c in p.deck.woodyPlants
      ensures KeyOfPlant(c) != k
    {
      assert !WoodyPlantEligible(c, dto, p.woodyPlants);
    }
    OffersKeyOfDto(catalog, dto);
    CountNone(p.deck.woodyPlants, KeyOfPlant, k);
    TakeMissing(p.deck.woodyPlants, KeyOfPlant, k => OffersKey(catalog, k), k, later);
  }

  /** The pass as it stands after a found woody plant `w` got its dwellers
      and left the pool. */
  lemma PlantStepFound(catalog: seq<Blueprint>, p: Pass, dto: WoodyPlantCardDto)
    requires FindWoodyPlantOfDto(p.deck.woodyPlants, dto, p.woodyPlants, catalog, p.nextId).card.Some?
    ensures var found := FindWoodyPlantOfDto(p.deck.woodyPlants, dto, p.woodyPlants, catalog, p.nextId);
      var q := PlantStep(catalog, p, dto);
      q.unavailableWoodyPlants == p.unavailableWoodyPlants && q.nextId == found.nextId
      && q.deck.woodyPlants == WithoutIds(p.deck.woodyPlants, {found.card.value.id}, IdOfWoodyPlant)
  {
    PlantStepFacts(catalog, p, dto);
    var found := FindWoodyPlantOfDto(p.deck.woodyPlants, dto, p.woodyPlants, catalog, p.nextId);
    PlaceDwellersFrame(p.(nextId := found.nextId), found.card.value, dto.dwellers);
  }

  /** An unclaimed pool card is found: the pool loses it, one card of the
      DTO's key. */
  lemma PlantStepFromPool(catalog: seq<Blueprint>, p: Pass, dto: WoodyPlantCardDto, later: multiset<PlantKey>)
    requires PlantInv(catalog, p)
    requires exists c :: c in p.deck.woodyPlants && WoodyPlantEligible(c, dto, p.woodyPlants)
    ensures PlantStepServes(catalog, p, dto, later)
  {
    PlantStepJustified(catalog, p, dto);
    PlantStepFound(catalog, p, dto);
    var w := FindWoodyPlantOfDto(p.deck.woodyPlants, dto, p.woodyPlants, catalog, p.nextId).card.value;
    var q := PlantStep(catalog, p, dto);
    assert w in p.deck.woodyPlants && KeyOfPlant(w) == KeyOfPlantDto(dto);
    DistinctWithout(p.deck.woodyPlants, {w.id}, IdOfWoodyPlant);
    forall e
      ensures CountKey(q.deck.woodyPlants, KeyOfPlant, e) + (if e == KeyOfPlantDto(dto) then 1 else 0)
           == CountKey(p.deck.woodyPlants, KeyOfPlant, e)
    {
      CountWithout(p.deck.woodyPlants, w, IdOfWoodyPlant, KeyOfPlant, e);
    }
    TakeKey(p.deck.woodyPlants, q.deck.woodyPlants, KeyOfPlant, k => OffersKey(catalog, k), KeyOfPlantDto(dto), later);
  }

  /** A catalog instance is minted: its id is fresh, so the pool keeps every
      card, and the catalog serves the DTO's key without limit. */
  lemma PlantStepMinted(catalog: seq<Blueprint>, p: Pass, dto: WoodyPlantCardDto, later: multiset<PlantKey>)
    requires PlantInv(catalog, p)
    requires !exists c :: c in p.deck.woodyPlants && WoodyPlantEligible(c, dto, p.woodyPlants)
    requires FindWoodyPlantOfDto(p.deck.woodyPlants, dto, p.woodyPlants, catalog, p.nextId).card.Some?
    ensures PlantStepServes(catalog, p, dto, later)
  {
    PlantStepJustified(catalog, p, dto);
    PlantStepFound(catalog, p, dto);
    var q := PlantStep(catalog, p, dto);
    WithoutAbsent(p.deck.woodyPlants, {p.nextId}, IdOfWoodyPlant);
    assert q.deck.woodyPlants == p.deck.woodyPlants && q.nextId == p.nextId + 1;
    OffersKeyOfDto(catalog, dto);
    TakeUnlimited(p.deck.woodyPlants, KeyOfPlant, k => OffersKey(catalog, k), KeyOfPlantDto(dto), later);
  }

  /** The woody-plant loop over a whole forest: every woody-plant DTO finds
      a card, and `later` can then be served, exactly when the pool and the
      catalog can serve all their keys together with `later`. */
  lemma {:induction false} ForestPlantsAvailable(catalog: seq<Blueprint>, p: Pass, dtos: seq<WoodyPlantCardDto>,
                                                 later: multiset<PlantKey>)
    requires PlantInv(catalog, p)
    ensures var q := ReconcileForest(catalog, p, dtos);
      (|q.unavailableWoodyPlants| == |p.unavailableWoodyPlants| && PlantsAvailable(catalog, q.deck.woodyPlants, later))
      <==> PlantsAvailable(catalog, p.deck.woodyPlants, multiset(PlantKeys(dtos)) + later)
    decreases |dtos|
  {
    if dtos == [] {
      assert multiset(PlantKeys(dtos)) + later == later;
    } else {
      var p1 := PlantStep(catalog, p, dtos[0]);
      PlantStepAvailable(catalog, p, dtos[0], multiset(PlantKeys(dtos[1..])) + later);
      ForestPlantsAvailable(catalog, p1, dtos[1..], later);
      PlantStepFrame(catalog, p, dtos[0]);
      ReconcileForestFrame(catalog, p1, dtos[1..]);
      MultisetCons(PlantKeys(dtos), later);
    }
  }

  /** One turn of the woody-plant loop whose DTO finds its card, seen from
      the dweller side: it runs the dweller loop over that DTO's dwellers. */
  lemma PlantStepDwellers(catalog: seq<Blueprint>, p: Pass, dto: WoodyPlantCardDto, later: multiset<DwellerCardDto>)
    requires DwellerInv(catalog, p)
    requires |PlantStep(catalog, p, dto).unavailableWoodyPlants| == |p.unavailableWoodyPlants|
    ensures var q := PlantStep(catalog, p, dto);
      DwellerInv(catalog, q)
      && ((|q.unavailableDwellers| == |p.unavailableDwellers| && DwellersAvailable(q.deck.dwellers, later))
          <==> DwellersAvailable(p.deck.dwellers, multiset(dto.dwellers) + later))
  {
    PlantStepJustified(catalog, p, dto);
    var found := FindWoodyPlantOfDto(p.deck.woodyPlants, dto, p.woodyPlants, catalog, p.nextId);
    PlantStepListed(catalog, p, dto);
    var p' := p.(nextId := found.nextId);
    PlaceDwellersAvailable(catalog, p', found.card.value, dto.dwellers, later);
    PlantStepDwellerSide(catalog, p, dto);
  }

  /** A woody-plant DTO that is not listed found its card. */
  lemma PlantStepListed(catalog: seq<Blueprint>, p: Pass, dto: WoodyPlantCardDto)
    requires |PlantStep(catalog, p, dto).unavailableWoodyPlants| == |p.unavailableWoodyPlants|
    ensures FindWoodyPlantOfDto(p.deck.woodyPlants, dto, p.woodyPlants, catalog, p.nextId).card.Some?
  {
    PlantStepFacts(catalog, p, dto);
  }

  /** On the dweller side, a turn that found its woody plant is the dweller
      loop over that DTO's dwellers. */
  lemma PlantStepDwellerSide(catalog: seq<Blueprint>, p: Pass, dto: WoodyPlantCardDto)
    requires FindWoodyPlantOfDto(p.deck.woodyPlants, dto, p.woodyPlants, catalog, p.nextId).card.Some?
    ensures var found := FindWoodyPlantOfDto(p.deck.woodyPlants, dto, p.woodyPlants, catalog, p.nextId);
      var r := PlaceDwellers(p.(nextId := found.nextId), found.card.value, dto.dwellers).0;
      var q := PlantStep(catalog, p, dto);
      q.deck.dwellers == r.deck.dwellers && q.dwellers == r.dwellers && q.unavailableDwellers == r.unavailableDwellers
  {
    PlantStepFacts(catalog, p, dto);
  }

  /** The dweller side of a forest whose woody-plant DTOs all find a card:
      every dweller lookup finds one, and `later` can then be served,
      exactly when the pool can serve all their dweller DTOs together with
      `later`. */
  lemma {:induction false} ForestDwellersAvailable(catalog: seq<Blueprint>, p: Pass, dtos: seq<WoodyPlantCardDto>,
                                                   later: multiset<DwellerCardDto>)
    requires DwellerInv(catalog, p)
    requires |ReconcileForest(catalog, p, dtos).unavailableWoodyPlants| == |p.unavailableWoodyPlants|
    ensures var q := ReconcileForest(catalog, p, dtos);
      (|q.unavailableDwellers| == |p.unavailableDwellers| && DwellersAvailable(q.deck.dwellers, later))
      <==> DwellersAvailable(p.deck.dwellers, multiset(AllDwellerDtos(dtos)) + later)
    decreases |dtos|
  {
    if dtos == [] {
      assert multiset(AllDwellerDtos(dtos)) + later == later;
    } else {
      var p1 := PlantStep(catalog, p, dtos[0]);
      PlantStepFrame(catalog, p, dtos[0]);
      ReconcileForestFrame(catalog, p1, dtos[1..]);
      PlantStepDwellers(catalog, p, dtos[0], multiset(AllDwellerDtos(dtos[1..])) + later);
      ForestDwellersAvailable(catalog, p1, dtos[1..], later);
      assert multiset(AllDwellerDtos(dtos)) + later
          == multiset(dtos[0].dwellers) + (multiset(AllDwellerDtos(dtos[1..])) + later);
    }
  }

  /** importPlayerData succeeds exactly when the deck has a cave with the
      requested name, the woody-plant pool and the catalog can serve every
      woody-plant DTO's key, and the dweller pool can serve every dweller
      DTO. The deck's ids must be distinct and below the id supply, as the
      ids the game mints are. */
  lemma ImportPlayerDataSucceeds(catalog: seq<Blueprint>, deck: Deck, players: seq<Player>, dto: PlayerDto, nextId: nat)
    requires DistinctIds(deck.woodyPlants, IdOfWoodyPlant) && DistinctIds(deck.dwellers, IdOfDweller)
    requires IdsBelow(deck.woodyPlants, nextId)
    ensures ImportPlayerDataSpec(catalog, deck, players, dto, nextId).result.PlayerSuccess?
      <==> (exists c :: c in deck.caves && c.name == dto.forest.cave.name)
           && PlantsAvailable(catalog, deck.woodyPlants, multiset(PlantKeys(dto.forest.woodyPlants)))
           && DwellersAvailable(deck.dwellers, multiset(AllDwellerDtos(dto.forest.woodyPlants)))
  {
    var ws := dto.forest.woodyPlants;
    var p := StartPass(deck, nextId);
    var q := ReconcileForest(catalog, p, ws);
    StartPassJustified(catalog, deck, nextId);
    ForestPlantsAvailable(catalog, p, ws, multiset{});
    assert multiset(PlantKeys(ws)) + multiset{} == multiset(PlantKeys(ws));
    if |q.unavailableWoodyPlants| == 0 {
      ForestDwellersAvailable(catalog, p, ws, multiset{});
      assert multiset(AllDwellerDtos(ws)) + multiset{} == multiset(AllDwellerDtos(ws));
    }
  }

  /** Two forests that ask for the same keys and the same dwellers, in
      whatever order, and the same cave, either both import or both fail. */
  lemma OutcomeIgnoresOrder(catalog: seq<Blueprint>, deck: Deck, players: seq<Player>, dto: PlayerDto, dto': PlayerDto,
                            nextId: nat)
    requires DistinctIds(deck.woodyPlants, IdOfWoodyPlant) && DistinctIds(deck.dwellers, IdOfDweller)
    requires IdsBelow(deck.woodyPlants, nextId)
    requires dto'.forest.cave.name == dto.forest.cave.name
    requires multiset(PlantKeys(dto'.forest.woodyPlants)) == multiset(PlantKeys(dto.forest.woodyPlants))
    requires multiset(AllDwellerDtos(dto'.forest.woodyPlants)) == multiset(AllDwellerDtos(dto.forest.woodyPlants))
    ensures ImportPlayerDataSpec(catalog, deck, players, dto', nextId).result.PlayerSuccess?
        <==> ImportPlayerDataSpec(catalog, deck, players, dto, nextId).result.PlayerSuccess?
  {
    ImportPlayerDataSucceeds(catalog, deck, players, dto, nextId);
    ImportPlayerDataSucceeds(catalog, deck, players, dto', nextId);
  }

  lemma {:induction false} PlantKeysAppend(a: seq<WoodyPlantCardDto>, b: seq<WoodyPlantCardDto>)
    ensures PlantKeys(a + b) == PlantKeys(a) + PlantKeys(b)
  {
  }

  lemma {:induction false} AllDwellerDtosAppend(a: seq<WoodyPlantCardDto>, b: seq<WoodyPlantCardDto>)
    ensures AllDwellerDtos(a + b) == AllDwellerDtos(a) + AllDwellerDtos(b)
    decreases |a|
  {
    if a == [] {
      assert a + b == b;
    } else {
      AllDwellerDtosAppend(a[1..], b);
      assert (a + b)[0] == a[0] && (a + b)[1..] == a[1..] + b;
    }
  }

  /** A forest split around the DTO at index `i`. */
  lemma SplitAround<T>(ws: seq<T>, i: nat)
    requires i < |ws|
    ensures ws == ws[..i] + ([ws[i]] + ws[i + 1..])
    ensures multiset(ws) == multiset(ws[..i] + ws[i + 1..]) + multiset{ws[i]}
  {
    assert ws == ws[..i] + ([ws[i]] + ws[i + 1..]);
  }

  /** The keys a forest asks for, split around the DTO at index `i`. */
  lemma KeysAround(ws: seq<WoodyPlantCardDto>, i: nat)
    requires i < |ws|
    ensures multiset(PlantKeys(ws)) == multiset(PlantKeys(ws[..i] + ws[i + 1..])) + multiset{KeyOfPlantDto(ws[i])}
  {
    SplitAround(ws, i);
    PlantKeysAppend(ws[..i], [ws[i]] + ws[i + 1..]);
    PlantKeysAppend(ws[..i], ws[i + 1..]);
    PlantKeysAppend([ws[i]], ws[i + 1..]);
  }

  /** The dwellers a forest asks for, split around the DTO at index `i`. */
  lemma DwellersAround(ws: seq<WoodyPlantCardDto>, i: nat)
    requires i < |ws|
    ensures multiset(AllDwellerDtos(ws)) == multiset(AllDwellerDtos(ws[..i] + ws[i + 1..])) + multiset(ws[i].dwellers)
  {
    SplitAround(ws, i);
    AllDwellerDtosAppend(ws[..i], [ws[i]] + ws[i + 1..]);
    AllDwellerDtosAppend(ws[..i], ws[i + 1..]);
    AllDwellerDtosAppend([ws[i]], ws[i + 1..]);
    assert AllDwellerDtos([ws[i]]) == ws[i].dwellers + AllDwellerDtos([]);
  }

  /** Taking the first DTO of `ws` and a copy of it out of its permutation
      `ws'` leaves two permutations of each other. */
  lemma PermutedRest<T>(ws: seq<T>, ws': seq<T>, i: nat)
    requires ws != [] && i < |ws'| && ws'[i] == ws[0] && multiset(ws') == multiset(ws)
    ensures multiset(ws'[..i] + ws'[i + 1..]) == multiset(ws[1..])
  {
    SplitAround(ws', i);
    assert ws == [ws[0]] + ws[1..];
    var rest' := multiset(ws'[..i] + ws'[i + 1..]);
    assert rest' + multiset{ws[0]} == multiset(ws[1..]) + multiset{ws[0]};
    assert forall e :: rest'[e] == (rest' + multiset{ws[0]})[e] - (if e == ws[0] then 1 else 0);
  }

  /** The demand of the first DTO and of the rest. */
  lemma DemandHead(ws: seq<WoodyPlantCardDto>)
    requires ws != []
    ensures multiset(PlantKeys(ws)) == multiset(PlantKeys(ws[1..])) + multiset{KeyOfPlantDto(ws[0])}
    ensures multiset(AllDwellerDtos(ws)) == multiset(AllDwellerDtos(ws[1..])) + multiset(ws[0].dwellers)
  {
  }

  /** Permuted woody-plant DTOs ask for the same keys and the same dwellers. */
  lemma {:induction false} PermutedDemand(ws: seq<WoodyPlantCardDto>, ws': seq<WoodyPlantCardDto>)
    requires multiset(ws') == multiset(ws)
    ensures multiset(PlantKeys(ws')) == multiset(PlantKeys(ws))
    ensures multiset(AllDwellerDtos(ws')) == multiset(AllDwellerDtos(ws))
    decreases |ws|
  {
    if ws != [] {
      assert ws[0] in multiset(ws');
      var i :| 0 <= i < |ws'| && ws'[i] == ws[0];
      PermutedRest(ws, ws', i);
      PermutedDemand(ws[1..], ws'[..i] + ws'[i + 1..]);
      KeysAround(ws', i);
      DwellersAround(ws', i);
      DemandHead(ws);
    }
  }

  /** Reordering a forest's woody-plant DTOs never changes whether
      importPlayerData succeeds. */
  lemma ReorderWoodyPlants(catalog: seq<Blueprint>, deck: Deck, players: seq<Player>, dto: PlayerDto,
                           ws': seq<WoodyPlantCardDto>, nextId: nat)
    requires DistinctIds(deck.woodyPlants, IdOfWoodyPlant) && DistinctIds(deck.dwellers, IdOfDweller)
    requires IdsBelow(deck.woodyPlants, nextId)
    requires multiset(ws') == multiset(dto.forest.woodyPlants)
    ensures ImportPlayerDataSpec(catalog, deck, players, dto.(forest := dto.forest.(woodyPlants := ws')), nextId).result.PlayerSuccess?
        <==> ImportPlayerDataSpec(catalog, deck, players, dto, nextId).result.PlayerSuccess?
  {
    PermutedDemand(dto.forest.woodyPlants, ws');
    OutcomeIgnoresOrder(catalog, deck, players, dto, dto.(forest := dto.forest.(woodyPlants := ws')), nextId);
  }

  /** Reordering the dweller DTOs of one woody-plant DTO never changes
      whether importPlayerData succeeds. */
  lemma ReorderDwellers(catalog: seq<Blueprint>, deck: Deck, players: seq<Player>, dto: PlayerDto,
                        i: nat, ds: seq<DwellerCardDto>, nextId: nat)
    requires DistinctIds(deck.woodyPlants, IdOfWoodyPlant) && DistinctIds(deck.dwellers, IdOfDweller)
    requires IdsBelow(deck.woodyPlants, nextId)
    requires i < |dto.forest.woodyPlants| && multiset(ds) == multiset(dto.forest.woodyPlants[i].dwellers)
    ensures var ws := dto.forest.woodyPlants;
      var dto' := dto.(forest := dto.forest.(woodyPlants := ws[i := ws[i].(dwellers := ds)]));
      ImportPlayerDataSpec(catalog, deck, players, dto', nextId).result.PlayerSuccess?
      <==> ImportPlayerDataSpec(catalog, deck, players, dto, nextId).result.PlayerSuccess?
  {
    var ws := dto.forest.woodyPlants;
    var ws' := ws[i := ws[i].(dwellers := ds)];
    KeysAround(ws, i);
    KeysAround(ws', i);
    DwellersAround(ws, i);
    DwellersAround(ws', i);
    assert ws'[..i] + ws'[i + 1..] == ws[..i] + ws[i + 1..];
    OutcomeIgnoresOrder(catalog, deck, players, dto, dto.(forest := dto.forest.(woodyPlants := ws')), nextId);
  }
}
