/** What importGame's player loop promises about a whole game: players are
    appended in order under distinct names, a failure is always about
    unavailable cards, and no woody plant card ends up with two players. */
module GameFacts {
  import opened Options
  import opened Dto
  import opened GameTypes
  import opened Names
  import opened Matching
  import opened Results
  import opened Reconcile
  import opened PassFacts
  import opened ForestFacts
  import opened PlayerFacts
  import opened Assembly

  /** No two players share a name. */
  predicate NamesDistinct(players: seq<Player>) {
    forall i, j :: 0 <= i < j < |players| ==> players[i].name != players[j].name
  }

  /** The woody plants of all the players' forests, player by player. */
  function AllWoodyPlants(players: seq<Player>): seq<WoodyPlantCard>
    decreases |players|
  {
    if players == [] then [] else players[0].forest.woodyPlants + AllWoodyPlants(players[1..])
  }

  lemma {:induction false} AllWoodyPlantsSnoc(players: seq<Player>, pl: Player)
    ensures AllWoodyPlants(players + [pl]) == AllWoodyPlants(players) + pl.forest.woodyPlants
    decreases |players|
  {
    if players == [] {
      assert [pl][1..] == [];
    } else {
      assert (players + [pl])[1..] == players[1..] + [pl];
      AllWoodyPlantsSnoc(players[1..], pl);
    }
  }

  /** Card ownership across a game: the woody plants in the players'
      forests carry distinct ids, none of them is still in the deck, every id
      in the deck or a forest was handed out before `nextId`. */
  predicate WoodyPlantsExclusive(deck: Deck, players: seq<Player>, nextId: nat) {
    IdsBelow(deck.woodyPlants, nextId)
    && DistinctIds(AllWoodyPlants(players), IdOfWoodyPlant)
    && forall w :: w in AllWoodyPlants(players) ==> w.id < nextId && w.id !in IdsOf(deck.woodyPlants, IdOfWoodyPlant)
  }

  lemma DistinctAppend(a: seq<WoodyPlantCard>, b: seq<WoodyPlantCard>)
    requires DistinctIds(a, IdOfWoodyPlant) && DistinctIds(b, IdOfWoodyPlant)
    requires forall x, y :: x in a && y in b ==> x.id != y.id
    ensures DistinctIds(a + b, IdOfWoodyPlant)
  {
    forall i, j | 0 <= i < j < |a + b|
      ensures IdOfWoodyPlant((a + b)[i]) != IdOfWoodyPlant((a + b)[j])
    {
      if j < |a| {
        assert (a + b)[i] == a[i] && (a + b)[j] == a[j];
      } else if i < |a| {
        assert (a + b)[i] in a && (a + b)[j] in b;
      } else {
        assert (a + b)[i] == b[i - |a|] && (a + b)[j] == b[j - |a|];
      }
    }
  }

  /** One successful importPlayerData keeps the woody plants exclusive. */
  lemma ImportPlayerDataExclusive(catalog: seq<Blueprint>, deck: Deck, players: seq<Player>, dto: PlayerDto, nextId: nat)
    requires WoodyPlantsExclusive(deck, players, nextId)
    ensures var o := ImportPlayerDataSpec(catalog, deck, players, dto, nextId);
      o.result.PlayerSuccess? ==> WoodyPlantsExclusive(o.deck, players + [o.result.player], o.nextId)
  {
    var o := ImportPlayerDataSpec(catalog, deck, players, dto, nextId);
    if o.result.PlayerSuccess? {
      var q := ForestPass(catalog, deck, dto, nextId);
      ImportPlayerDataDeck(catalog, deck, players, dto, nextId);
      var old_ := AllWoodyPlants(players);
      var ws := q.woodyPlants;
      var pool := IdsOf(deck.woodyPlants, IdOfWoodyPlant);
      AllWoodyPlantsSnoc(players, o.result.player);
      assert o.nextId == q.nextId + 1;
      forall w | w in ws
        ensures w.id < o.nextId && (w.id in pool || nextId <= w.id)
      {
        if w.id in pool {
          var c :| c in deck.woodyPlants && c.id == w.id;
        }
      }
      DistinctAppend(old_, ws);
      forall w | w in old_ + ws
        ensures w.id < o.nextId && w.id !in IdsOf(o.deck.woodyPlants, IdOfWoodyPlant)
      {
        if w in old_ {
          assert w.id !in pool;
        } else {
          assert w.id in IdsOf(ws, IdOfWoodyPlant);
        }
        forall c | c in o.deck.woodyPlants
          ensures c.id != w.id
        {
          assert c in deck.woodyPlants;
        }
      }
    }
  }

  lemma NamesDistinctSnoc(players: seq<Player>, pl: Player)
    requires NamesDistinct(players) && pl.name !in NamesOf(players)
    ensures NamesDistinct(players + [pl])
  {
    forall i, j | 0 <= i < j < |players + [pl]|
      ensures (players + [pl])[i].name != (players + [pl])[j].name
    {
      if j == |players| {
        assert players[i] in players;
      }
    }
  }

  /** The import of every player DTO against one deck: on success the game's
      players are the old ones followed by one new player per DTO, in order,
      names stay distinct, woody plants stay exclusive and the id supply only
      grows; a failure is always UnavailableCards with its report. */
  lemma {:induction false} ImportPlayersFacts(catalog: seq<Blueprint>, deck: Deck, players: seq<Player>,
                                              dtos: seq<PlayerDto>, nextId: nat)
    ensures var r := ImportPlayersSpec(catalog, deck, players, dtos, nextId);
      (r.AllImported? ==>
         players <= r.players && |r.players| == |players| + |dtos| && nextId <= r.nextId
         && r.deck.caves == deck.caves
         && (NamesDistinct(players) ==> NamesDistinct(r.players)))
      && (r.PlayerFailed? ==> r.error == UnavailableCards && r.unavailableCards.Some?)
    decreases |dtos|
  {
    if dtos != [] {
      var o := ImportPlayerDataSpec(catalog, deck, players, dtos[0], nextId);
      if o.result.PlayerSuccess? {
        var pl := o.result.player;
        ReconcileForestFrame(catalog, StartPass(deck, nextId), dtos[0].forest.woodyPlants);
        ImportPlayersFacts(catalog, o.deck, players + [pl], dtos[1..], o.nextId);
        if NamesDistinct(players) {
          NamesDistinctSnoc(players, pl);
        }
      }
    }
  }

  /** `pl` is what importPlayerData makes of `dto` next to the players
      `before` it: a name none of them has, the requested one whenever it is
      free; the first of `caves` with the requested name; and woody plants that match the
      DTO's one for one, in order. */
  predicate ImportedFrom(caves: seq<Cave>, pl: Player, dto: PlayerDto, before: seq<Player>) {
    pl.name !in NamesOf(before) && (dto.name !in NamesOf(before) ==> pl.name == dto.name)
    && Some(pl.forest.cave) == FindCaveOfDto(caves, dto.forest.cave)
    && |pl.forest.woodyPlants| == |dto.forest.woodyPlants|
    && forall i :: 0 <= i < |dto.forest.woodyPlants| ==>
         WoodyPlantMatches(pl.forest.woodyPlants[i], dto.forest.woodyPlants[i])
  }

  /** The player at position |before| + k of `after` was imported from
      `dtos[k]`, named against every player before it. */
  predicate ImportedAt(caves: seq<Cave>, before: seq<Player>, dtos: seq<PlayerDto>, after: seq<Player>, k: nat)
    requires k < |dtos| && |after| == |before| + |dtos|
  {
    ImportedFrom(caves, after[|before| + k], dtos[k], after[..|before| + k])
  }

  /** `after` is `before` followed by one player imported from each DTO, in
      order, each named against every player before it. */
  predicate InOrder(caves: seq<Cave>, before: seq<Player>, dtos: seq<PlayerDto>, after: seq<Player>) {
    |after| == |before| + |dtos| && after[..|before|] == before
    && forall k: nat :: k < |dtos| ==> ImportedAt(caves, before, dtos, after, k)
  }

  lemma InOrderCons(caves: seq<Cave>, before: seq<Player>, pl: Player, dtos: seq<PlayerDto>, after: seq<Player>)
    requires dtos != [] && ImportedFrom(caves, pl, dtos[0], before)
    requires InOrder(caves, before + [pl], dtos[1..], after)
    ensures InOrder(caves, before, dtos, after)
  {
    PrefixOfSnoc(before, pl, after);
    forall k: nat | k < |dtos|
      ensures ImportedAt(caves, before, dtos, after, k)
    {
      if k == 0 {
        InOrderHead(caves, before, pl, dtos, after);
      } else {
        InOrderTail(caves, before, pl, dtos, after, k);
      }
    }
  }

  lemma PrefixOfSnoc(before: seq<Player>, pl: Player, after: seq<Player>)
    requires |before| < |after| && after[..|before| + 1] == before + [pl]
    ensures after[..|before|] == before && after[|before|] == pl
  {
    assert after[..|before|] == (after[..|before| + 1])[..|before|];
    assert after[|before|] == (after[..|before| + 1])[|before|];
  }

  lemma InOrderHead(caves: seq<Cave>, before: seq<Player>, pl: Player, dtos: seq<PlayerDto>, after: seq<Player>)
    requires dtos != [] && ImportedFrom(caves, pl, dtos[0], before)
    requires |after| == |before| + |dtos| && after[..|before|] == before && after[|before|] == pl
    ensures ImportedAt(caves, before, dtos, after, 0)
  {
  }

  lemma InOrderTail(caves: seq<Cave>, before: seq<Player>, pl: Player, dtos: seq<PlayerDto>, after: seq<Player>, k: nat)
    requires 0 < k < |dtos| && InOrder(caves, before + [pl], dtos[1..], after)
    ensures ImportedAt(caves, before, dtos, after, k)
  {
    assert ImportedAt(caves, before + [pl], dtos[1..], after, k - 1);
    assert |before + [pl]| + (k - 1) == |before| + k && dtos[1..][k - 1] == dtos[k];
  }

  /** On success the loop appends the k-th new player from the k-th DTO,
      named against every player before it. */
  lemma {:induction false} ImportPlayersInOrder(catalog: seq<Blueprint>, deck: Deck, players: seq<Player>,
                                                dtos: seq<PlayerDto>, nextId: nat)
    ensures var r := ImportPlayersSpec(catalog, deck, players, dtos, nextId);
      r.AllImported? ==> InOrder(deck.caves, players, dtos, r.players)
    decreases |dtos|
  {
    if dtos != [] {
      var o := ImportPlayerDataSpec(catalog, deck, players, dtos[0], nextId);
      if o.result.PlayerSuccess? {
        var pl := o.result.player;
        ImportPlayerDataSuccess(catalog, deck, players, dtos[0], nextId);
        ReconcileForestFrame(catalog, StartPass(deck, nextId), dtos[0].forest.woodyPlants);
        ImportPlayersInOrder(catalog, o.deck, players + [pl], dtos[1..], o.nextId);
        var r := ImportPlayersSpec(catalog, o.deck, players + [pl], dtos[1..], o.nextId);
        if r.AllImported? {
          InOrderCons(deck.caves, players, pl, dtos, r.players);
        }
      }
    } else {
      assert players[..|players|] == players;
    }
  }

  /** Over the whole loop, no woody plant card ends up in two forests or
      both in a forest and in the deck. */
  lemma {:induction false} ImportPlayersExclusive(catalog: seq<Blueprint>, deck: Deck, players: seq<Player>,
                                                  dtos: seq<PlayerDto>, nextId: nat)
    requires WoodyPlantsExclusive(deck, players, nextId)
    ensures var r := ImportPlayersSpec(catalog, deck, players, dtos, nextId);
      r.AllImported? ==> WoodyPlantsExclusive(r.deck, r.players, r.nextId)
    decreases |dtos|
  {
    if dtos != [] {
      var o := ImportPlayerDataSpec(catalog, deck, players, dtos[0], nextId);
      ImportPlayerDataExclusive(catalog, deck, players, dtos[0], nextId);
      if o.result.PlayerSuccess? {
        ImportPlayersExclusive(catalog, o.deck, players + [o.result.player], dtos[1..], o.nextId);
      }
    }
  }

  /** Dweller ownership across a game: the deck's woody plants hold no
      dwellers, no dweller id is held in two players' forests, and none held
      in a forest is still in the deck's dweller pool. */
  ghost predicate DwellersExclusive(deck: Deck, players: seq<Player>) {
    (forall c :: c in deck.woodyPlants ==> EmptySlots(c))
    && (forall i :: 0 <= i < |players| ==>
          HeldIds(players[i].forest.woodyPlants) !! IdsOf(deck.dwellers, IdOfDweller))
    && (forall i, j :: 0 <= i < j < |players| ==>
          HeldIds(players[i].forest.woodyPlants) !! HeldIds(players[j].forest.woodyPlants))
  }

  /** A new player holding only dwellers taken out of the deck keeps the
      dwellers exclusive. */
  lemma DwellersExclusiveSnoc(deck: Deck, deck': Deck, players: seq<Player>, pl: Player)
    requires DwellersExclusive(deck, players)
    requires forall c :: c in deck'.woodyPlants ==> c in deck.woodyPlants
    requires IdsOf(deck'.dwellers, IdOfDweller) <= IdsOf(deck.dwellers, IdOfDweller)
    requires HeldIds(pl.forest.woodyPlants) <= IdsOf(deck.dwellers, IdOfDweller)
    requires HeldIds(pl.forest.woodyPlants) !! IdsOf(deck'.dwellers, IdOfDweller)
    ensures DwellersExclusive(deck', players + [pl])
  {
    var ps := players + [pl];
    forall i | 0 <= i < |ps|
      ensures HeldIds(ps[i].forest.woodyPlants) !! IdsOf(deck'.dwellers, IdOfDweller)
    {
      if i < |players| {
        assert ps[i] == players[i];
      }
    }
    forall i, j | 0 <= i < j < |ps|
      ensures HeldIds(ps[i].forest.woodyPlants) !! HeldIds(ps[j].forest.woodyPlants)
    {
      assert ps[i] == players[i];
      if j < |players| {
        assert ps[j] == players[j];
      }
    }
  }

  /** One successful importPlayerData keeps the dwellers exclusive: the new
      player holds exactly the dwellers it took from the deck. */
  lemma ImportPlayerDataDwellersExclusive(catalog: seq<Blueprint>, deck: Deck, players: seq<Player>,
                                          dto: PlayerDto, nextId: nat)
    requires IdsBelow(deck.woodyPlants, nextId) && DwellersExclusive(deck, players)
    ensures var o := ImportPlayerDataSpec(catalog, deck, players, dto, nextId);
      var q := ForestPass(catalog, deck, dto, nextId);
      o.result.PlayerSuccess? ==>
        HeldIds(o.result.player.forest.woodyPlants) == IdsOf(q.dwellers, IdOfDweller)
        && DwellersExclusive(o.deck, players + [o.result.player])
  {
    var o := ImportPlayerDataSpec(catalog, deck, players, dto, nextId);
    if o.result.PlayerSuccess? {
      var q := ForestPass(catalog, deck, dto, nextId);
      var pl := o.result.player;
      ImportPlayerDataDeck(catalog, deck, players, dto, nextId);
      ImportPlayerDataSlots(catalog, deck, players, dto, nextId);
      AssembledHeld(dto.forest.woodyPlants, pl.forest.woodyPlants, q.dwellers);
      var pool := IdsOf(deck.dwellers, IdOfDweller);
      var pool' := IdsOf(o.deck.dwellers, IdOfDweller);
      forall id | id in IdsOf(q.dwellers, IdOfDweller)
        ensures id in pool && id !in pool'
      {
        var d :| d in q.dwellers && d.id == id;
      }
      forall id | id in pool'
        ensures id in pool
      {
        var c :| c in o.deck.dwellers && c.id == id;
      }
      DwellersExclusiveSnoc(deck, o.deck, players, pl);
    }
  }

  /** Over the whole loop, no dweller card ends up in two forests or both in
      a forest and in the deck. */
  lemma {:induction false} ImportPlayersDwellersExclusive(catalog: seq<Blueprint>, deck: Deck, players: seq<Player>,
                                                          dtos: seq<PlayerDto>, nextId: nat)
    requires WoodyPlantsExclusive(deck, players, nextId) && DwellersExclusive(deck, players)
    ensures var r := ImportPlayersSpec(catalog, deck, players, dtos, nextId);
      r.AllImported? ==> DwellersExclusive(r.deck, r.players)
    decreases |dtos|
  {
    if dtos != [] {
      var o := ImportPlayerDataSpec(catalog, deck, players, dtos[0], nextId);
      ImportPlayerDataExclusive(catalog, deck, players, dtos[0], nextId);
      ImportPlayerDataDwellersExclusive(catalog, deck, players, dtos[0], nextId);
      if o.result.PlayerSuccess? {
        ImportPlayersDwellersExclusive(catalog, o.deck, players + [o.result.player], dtos[1..], o.nextId);
      }
    }
  }
}
