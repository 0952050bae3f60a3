/** The in-memory game entities the importer rebuilds: identity-bearing cards,
    the deck they are drawn from, players and the game itself.

    Card and player ids are natural numbers here; the factories that mint them
    (`createWoodyPlant`, `createPlayer`) are given a fresh id by the caller. */
module GameTypes {
  import opened Options

  type CardId = nat

  datatype DwellerCard = DwellerCard(
    id: CardId,
    name: string,
    gameBox: string,
    treeSymbol: Option<string>,
    position: string)

  /** A woody plant with its dweller slots, one sequence per position. */
  datatype WoodyPlantCard = WoodyPlantCard(
    id: CardId,
    name: string,
    gameBox: string,
    treeSymbol: Option<string>,
    dwellers: map<string, seq<DwellerCard>>)

  datatype Cave = Cave(name: string, cardCount: int)

  /** The authoritative pools of one game. */
  datatype Deck = Deck(
    woodyPlants: seq<WoodyPlantCard>,
    dwellers: seq<DwellerCard>,
    caves: seq<Cave>)

  /** One entry of the static woody-plant catalog: a blueprint and the
      (game box, tree symbol) variants it is printed in. `isPartOfDeck` may be
      absent on a blueprint, hence the Option. */
  datatype Variant = Variant(gameBox: string, treeSymbol: Option<string>)

  datatype Blueprint = Blueprint(
    name: string,
    isPartOfDeck: Option<bool>,
    variants: seq<Variant>)

  datatype Forest = Forest(cave: Cave, woodyPlants: seq<WoodyPlantCard>)

  datatype Player = Player(id: nat, name: string, forest: Forest)

  /** A game: the importer reassigns its deck pools and appends to its players. */
  class Game {
    var id: string
    var gameBoxes: seq<string>
    var deck: Deck
    var players: seq<Player>

    constructor (id: string, gameBoxes: seq<string>, deck: Deck)
      ensures this.id == id && this.gameBoxes == gameBoxes
      ensures this.deck == deck && players == []
    {
      this.id := id;
      this.gameBoxes := gameBoxes;
      this.deck := deck;
      players := [];
    }
  }

  function IdOfDweller(d: DwellerCard): CardId { d.id }

  function IdOfWoodyPlant(w: WoodyPlantCard): CardId { w.id }

  /** The ids held by a sequence of cards. */
  function IdsOf<C(==,!new)>(cards: seq<C>, idOf: C -> CardId): (ids: set<CardId>)
    ensures forall c :: c in cards ==> idOf(c) in ids
    ensures forall id :: id in ids ==> exists c :: c in cards && idOf(c) == id
  {
    set c | c in cards :: idOf(c)
  }

  /** `pool.filter((c) => !ids.has(c.id))`: the pool without the cards whose
      id is in `ids`, in their original order. */
  function WithoutIds<C(==,!new)>(pool: seq<C>, ids: set<CardId>, idOf: C -> CardId): (r: seq<C>)
    ensures forall c :: c in r <==> c in pool && idOf(c) !in ids
    ensures |r| <= |pool|
  {
    if pool == [] then []
    else (if idOf(pool[0]) in ids then [] else [pool[0]]) + WithoutIds(pool[1..], ids, idOf)
  }

  /** `filter` looks at the first card, then filters the rest. */
  lemma WithoutIdsCons<C(!new)>(c: C, rest: seq<C>, ids: set<CardId>, idOf: C -> CardId)
    ensures WithoutIds([c] + rest, ids, idOf) == (if idOf(c) in ids then [] else [c]) + WithoutIds(rest, ids, idOf)
  {
    assert ([c] + rest)[0] == c && ([c] + rest)[1..] == rest;
  }

  /** `filter` keeps the pool's order and each card's multiplicity: it works
      card by card, and a pool split in two is filtered part by part. */
  lemma {:induction false} WithoutIdsAppend<C(!new)>(a: seq<C>, b: seq<C>, ids: set<CardId>, idOf: C -> CardId)
    ensures WithoutIds(a + b, ids, idOf) == WithoutIds(a, ids, idOf) + WithoutIds(b, ids, idOf)
    decreases |a|
  {
    if a == [] {
      assert a + b == b;
    } else {
      var rest := a[1..];
      WithoutIdsAppend(rest, b, ids, idOf);
      ConsAppend(a, b);
      WithoutIdsCons(a[0], rest + b, ids, idOf);
      WithoutIdsCons(a[0], rest, ids, idOf);
      AppendAssoc(if idOf(a[0]) in ids then [] else [a[0]], WithoutIds(rest, ids, idOf), WithoutIds(b, ids, idOf));
    }
  }

  lemma ConsAppend<T>(a: seq<T>, b: seq<T>)
    requires a != []
    ensures a == [a[0]] + a[1..] && a + b == [a[0]] + (a[1..] + b)
  {
  }

  lemma AppendAssoc<T>(x: seq<T>, y: seq<T>, z: seq<T>)
    ensures x + (y + z) == (x + y) + z
  {
  }

  /** A single card is kept exactly when its id is not removed. */
  lemma WithoutIdsOne<C(!new)>(c: C, ids: set<CardId>, idOf: C -> CardId)
    ensures WithoutIds([c], ids, idOf) == (if idOf(c) in ids then [] else [c])
  {
    assert [c][1..] == [];
  }

  /** Filtering twice is filtering once by the union of the ids. */
  lemma {:induction false} WithoutIdsTwice<C(!new)>(pool: seq<C>, a: set<CardId>, b: set<CardId>, idOf: C -> CardId)
    ensures WithoutIds(WithoutIds(pool, a, idOf), b, idOf) == WithoutIds(pool, a + b, idOf)
  {
    if pool != [] {
      WithoutIdsTwice(pool[1..], a, b, idOf);
      var rest := WithoutIds(pool[1..], a, idOf);
      if idOf(pool[0]) !in a {
        assert WithoutIds(pool, a, idOf) == [pool[0]] + rest;
        assert ([pool[0]] + rest)[1..] == rest;
      } else {
        assert WithoutIds(pool, a, idOf) == rest;
      }
    }
  }

  /** The dwellers in one position slot of a woody plant; a slot that is not
      there holds nothing. */
  function Slot(w: WoodyPlantCard, position: string): seq<DwellerCard> {
    if position in w.dwellers then w.dwellers[position] else []
  }

  /** The draft update `draft.dwellers[d.position].push(d)`: a copy of the
      woody plant whose slot for `d.position` has `d` appended. */
  function PlaceInSlot(w: WoodyPlantCard, d: DwellerCard): (r: WoodyPlantCard)
    ensures r.id == w.id && r.name == w.name && r.gameBox == w.gameBox && r.treeSymbol == w.treeSymbol
    ensures Slot(r, d.position) == Slot(w, d.position) + [d]
    ensures forall p :: p != d.position ==> Slot(r, p) == Slot(w, p)
  {
    w.(dwellers := w.dwellers[d.position := Slot(w, d.position) + [d]])
  }

  /** `createWoodyPlant(blueprint, variant)`, with the fresh id it mints. */
  function CreateWoodyPlant(id: CardId, blueprint: Blueprint, variant: Variant): WoodyPlantCard {
    WoodyPlantCard(id, blueprint.name, variant.gameBox, variant.treeSymbol, map[])
  }

  /** `createPlayer(name, cave, woodyPlants)`, with the fresh id it mints. */
  function CreatePlayer(id: nat, name: string, cave: Cave, woodyPlants: seq<WoodyPlantCard>): Player {
    Player(id, name, Forest(cave, woodyPlants))
  }

  function NamesOf(players: seq<Player>): (names: set<string>)
    ensures forall p :: p in players ==> p.name in names
    ensures forall n :: n in names ==> exists p :: p in players && p.name == n
  {
    set p | p in players :: p.name
  }
}
