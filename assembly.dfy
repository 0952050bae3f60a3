/** How importPlayerData assembles a forest: each woody plant found gets,
    in the slot of each position, exactly the dwellers found for its own
    dweller DTOs, in order. */
module Assembly {
  import opened Options
  import opened Dto
  import opened GameTypes
  import opened Matching
  import opened Reconcile
  import opened PassFacts
  import opened ForestFacts
  import opened PlayerFacts

  /** A woody plant with no dweller in any slot, as the deck holds them. */
  ghost predicate EmptySlots(w: WoodyPlantCard) {
    forall position :: Slot(w, position) == []
  }

  /** Each slot of `w` holds exactly the dwellers of `ds` with its position,
      in the order of `ds`. */
  ghost predicate SlotsHold(w: WoodyPlantCard, ds: seq<DwellerCard>) {
    forall position :: Slot(w, position) == InPosition(ds, position)
  }

  /** The forest importPlayerData assembles from `dtos`: the i-th woody
      plant matches the i-th DTO, and the next |dtos[i].dwellers| dwellers of
      `found` match that DTO's dweller DTOs one for one and are exactly what
      the plant's slots hold. */
  ghost predicate Assembled(dtos: seq<WoodyPlantCardDto>, plants: seq<WoodyPlantCard>, found: seq<DwellerCard>)
    decreases |dtos|
  {
    if dtos == [] then plants == [] && found == []
    else
      var n := |dtos[0].dwellers|;
      plants != [] && n <= |found| && WoodyPlantMatches(plants[0], dtos[0])
      && (forall j :: 0 <= j < n ==> DwellerMatches(found[j], dtos[0].dwellers[j]))
      && SlotsHold(plants[0], found[..n])
      && Assembled(dtos[1..], plants[1..], found[n..])
  }

  /** Every woody plant left in the pass's deck has empty slots. */
  ghost predicate DeckSlotsEmpty(p: Pass) {
    forall c :: c in p.deck.woodyPlants ==> EmptySlots(c)
  }

  /** One turn of the woody-plant loop keeps the deck's woody plants empty,
      and a woody plant it finds holds exactly the dwellers found in that
      turn. */
  lemma PlantStepAssembles(catalog: seq<Blueprint>, p: Pass, dto: WoodyPlantCardDto)
    requires DeckSlotsEmpty(p)
    ensures var q := PlantStep(catalog, p, dto);
      DeckSlotsEmpty(q)
      && (FindWoodyPlantOfDto(p.deck.woodyPlants, dto, p.woodyPlants, catalog, p.nextId).card.Some? ==>
            |q.woodyPlants| == |p.woodyPlants| + 1 && p.dwellers <= q.dwellers
            && SlotsHold(q.woodyPlants[|p.woodyPlants|], q.dwellers[|p.dwellers|..]))
  {
    var found := FindWoodyPlantOfDto(p.deck.woodyPlants, dto, p.woodyPlants, catalog, p.nextId);
    if found.card.Some? {
      var w := found.card.value;
      if exists c :: c in p.deck.woodyPlants && WoodyPlantEligible(c, dto, p.woodyPlants) {
        var i :| 0 <= i < |p.deck.woodyPlants| && p.deck.woodyPlants[i] == w;
        assert w in p.deck.woodyPlants;
      } else {
        assert w.dwellers == map[];
      }
      assert EmptySlots(w);
      var p' := p.(nextId := found.nextId);
      PlaceDwellersFrame(p', w, dto.dwellers);
      PlaceDwellersSlots(p', w, dto.dwellers);
      var (r, w') := PlaceDwellers(p', w, dto.dwellers);
      var q := PlantStep(catalog, p, dto);
      assert q.woodyPlants == p.woodyPlants + [w'] && q.dwellers == r.dwellers;
      assert q.deck.woodyPlants == WithoutIds(p.deck.woodyPlants, {w'.id}, IdOfWoodyPlant);
    }
  }

  /** One woody plant assembled from `dtos[0]`, then the rest. */
  lemma AssembledCons(dtos: seq<WoodyPlantCardDto>, ws: seq<WoodyPlantCard>, ws1: seq<WoodyPlantCard>,
                      wsq: seq<WoodyPlantCard>, ds: seq<DwellerCard>, ds1: seq<DwellerCard>, dsq: seq<DwellerCard>)
    requires dtos != [] && ws <= ws1 <= wsq && ds <= ds1 <= dsq
    requires |ws1| == |ws| + 1 && WoodyPlantMatches(ws1[|ws|], dtos[0])
    requires DwellersSplit(dtos[0].dwellers, ds1[|ds|..], []) && SlotsHold(ws1[|ws|], ds1[|ds|..])
    requires Assembled(dtos[1..], wsq[|ws1|..], dsq[|ds1|..])
    ensures Assembled(dtos, wsq[|ws|..], dsq[|ds|..])
  {
    var seg := ds1[|ds|..];
    DwellersSplitSizes(dtos[0].dwellers, seg, []);
    SliceSplit(ws, ws1, wsq);
    SliceSplit(ds, ds1, dsq);
    var plants := wsq[|ws|..];
    var found := dsq[|ds|..];
    assert plants[0] == ws1[|ws|];
    assert plants[1..] == wsq[|ws1|..];
    assert found[..|seg|] == seg && found[|seg|..] == dsq[|ds1|..];
  }

  /** Over a forest in which nothing goes missing, the woody plants and
      dwellers the pass finds are assembled from the DTOs. */
  lemma {:induction false} ReconcileForestAssembles(catalog: seq<Blueprint>, p: Pass, dtos: seq<WoodyPlantCardDto>)
    requires DeckSlotsEmpty(p)
    ensures var q := ReconcileForest(catalog, p, dtos);
      p.woodyPlants <= q.woodyPlants && p.dwellers <= q.dwellers
      && (q.unavailableWoodyPlants == p.unavailableWoodyPlants && q.unavailableDwellers == p.unavailableDwellers ==>
            Assembled(dtos, q.woodyPlants[|p.woodyPlants|..], q.dwellers[|p.dwellers|..]))
    decreases |dtos|
  {
    var q := ReconcileForest(catalog, p, dtos);
    ReconcileForestFrame(catalog, p, dtos);
    if dtos == [] {
      assert q.woodyPlants[|p.woodyPlants|..] == [] && q.dwellers[|p.dwellers|..] == [];
    } else if q.unavailableWoodyPlants == p.unavailableWoodyPlants && q.unavailableDwellers == p.unavailableDwellers {
      var p1 := PlantStep(catalog, p, dtos[0]);
      assert q == ReconcileForest(catalog, p1, dtos[1..]);
      PlantStepAssembles(catalog, p, dtos[0]);
      PlantStepAccounts(catalog, p, dtos[0]);
      ReconcileForestFrame(catalog, p1, dtos[1..]);
      ReconcileForestAssembles(catalog, p1, dtos[1..]);
      assert |p1.unavailableWoodyPlants| == |p.unavailableWoodyPlants|;
      assert p1.unavailableDwellers[|p.unavailableDwellers|..] == [];
      AssembledCons(dtos, p.woodyPlants, p1.woodyPlants, q.woodyPlants, p.dwellers, p1.dwellers, q.dwellers);
    }
  }

  /** A successful importPlayerData, from a deck whose woody plants carry no
      dwellers, gives the player a forest assembled from the DTOs: the i-th
      woody plant matches the i-th DTO and holds, slot by slot and in DTO
      order, exactly the dwellers found for that DTO's dweller DTOs. */
  lemma ImportPlayerDataSlots(catalog: seq<Blueprint>, deck: Deck, players: seq<Player>, dto: PlayerDto, nextId: nat)
    requires forall c :: c in deck.woodyPlants ==> EmptySlots(c)
    ensures var o := ImportPlayerDataSpec(catalog, deck, players, dto, nextId);
      var q := ForestPass(catalog, deck, dto, nextId);
      o.result.PlayerSuccess? ==> Assembled(dto.forest.woodyPlants, o.result.player.forest.woodyPlants, q.dwellers)
  {
    var q := ForestPass(catalog, deck, dto, nextId);
    ReconcileForestAssembles(catalog, StartPass(deck, nextId), dto.forest.woodyPlants);
    assert q.woodyPlants[0..] == q.woodyPlants && q.dwellers[0..] == q.dwellers;
  }

  /** The ids of the dwellers held in the slots of the woody plants `ws`. */
  ghost function HeldIds(ws: seq<WoodyPlantCard>): set<CardId> {
    set w, position, d | w in ws && position in w.dwellers && d in w.dwellers[position] :: d.id
  }

  lemma {:induction false} InPositionMembers(ds: seq<DwellerCard>, position: string, d: DwellerCard)
    ensures d in InPosition(ds, position) <==> d in ds && d.position == position
    decreases |ds|
  {
    if ds != [] {
      InPositionMembers(ds[1..], position, d);
      assert ds == [ds[0]] + ds[1..];
    }
  }

  /** A woody plant whose slots hold exactly `ds` holds exactly their ids. */
  lemma SlotsHoldIds(w: WoodyPlantCard, ds: seq<DwellerCard>)
    requires SlotsHold(w, ds)
    ensures HeldIds([w]) == IdsOf(ds, IdOfDweller)
  {
    forall id | id in HeldIds([w])
      ensures id in IdsOf(ds, IdOfDweller)
    {
      var w0, position, d :| w0 in [w] && position in w0.dwellers && d in w0.dwellers[position] && d.id == id;
      assert d in Slot(w, position);
      InPositionMembers(ds, position, d);
    }
    forall id | id in IdsOf(ds, IdOfDweller)
      ensures id in HeldIds([w])
    {
      var d :| d in ds && d.id == id;
      InPositionMembers(ds, d.position, d);
      assert d in Slot(w, d.position);
      assert d.position in w.dwellers && d in w.dwellers[d.position];
    }
  }

  lemma HeldIdsCons(ws: seq<WoodyPlantCard>)
    requires ws != []
    ensures HeldIds(ws) == HeldIds([ws[0]]) + HeldIds(ws[1..])
  {
    assert forall w :: w in ws <==> w in [ws[0]] || w in ws[1..];
  }

  lemma IdsOfAppend<C(!new)>(a: seq<C>, b: seq<C>, idOf: C -> CardId)
    ensures IdsOf(a + b, idOf) == IdsOf(a, idOf) + IdsOf(b, idOf)
  {
    assert forall c :: c in a + b <==> c in a || c in b;
  }

  /** An assembled forest holds exactly the ids of the dwellers found. */
  lemma {:induction false} AssembledHeld(dtos: seq<WoodyPlantCardDto>, plants: seq<WoodyPlantCard>, found: seq<DwellerCard>)
    requires Assembled(dtos, plants, found)
    ensures HeldIds(plants) == IdsOf(found, IdOfDweller)
    decreases |dtos|
  {
    if dtos != [] {
      var n := |dtos[0].dwellers|;
      AssembledHeld(dtos[1..], plants[1..], found[n..]);
      SlotsHoldIds(plants[0], found[..n]);
      HeldIdsCons(plants);
      IdsOfAppend(found[..n], found[n..], IdOfDweller);
      assert found == found[..n] + found[n..];
    }
  }
}
