/** What one importPlayerData pass achieves: every DTO accounted for in
    order, matched cards equal to their DTOs, the deck pools losing exactly
    the matched cards, dwellers landing in their position slots. */
module PassFacts {
  import opened Options
  import opened Dto
  import opened GameTypes
  import opened Matching
  import opened Reconcile

  /** The DTOs, in order, split into the cards found for them (each equal
      to its DTO) and the DTOs that found none. */
  predicate DwellersSplit(dtos: seq<DwellerCardDto>, placed: seq<DwellerCard>, missing: seq<DwellerCardDto>)
    decreases |dtos|
  {
    if dtos == [] then placed == [] && missing == []
    else
      (placed != [] && DwellerMatches(placed[0], dtos[0]) && DwellersSplit(dtos[1..], placed[1..], missing))
      || (missing != [] && missing[0] == dtos[0] && DwellersSplit(dtos[1..], placed, missing[1..]))
  }

  /** No two cards of `cs` share an id. */
  predicate DistinctIds<C>(cs: seq<C>, idOf: C -> CardId) {
    forall i, j :: 0 <= i < j < |cs| ==> idOf(cs[i]) != idOf(cs[j])
  }

  /** The dwellers of `ds` whose position is `position`, in order. */
  function InPosition(ds: seq<DwellerCard>, position: string): seq<DwellerCard> {
    if ds == [] then []
    else (if ds[0].position == position then [ds[0]] else []) + InPosition(ds[1..], position)
  }

  lemma {:induction false} DwellersSplitSizes(dtos: seq<DwellerCardDto>, placed: seq<DwellerCard>, missing: seq<DwellerCardDto>)
    requires DwellersSplit(dtos, placed, missing)
    ensures |placed| + |missing| == |dtos|
    ensures missing == [] ==> forall i :: 0 <= i < |dtos| ==> DwellerMatches(placed[i], dtos[i])
    decreases |dtos|
  {
    if dtos != [] {
      if placed != [] && DwellerMatches(placed[0], dtos[0]) && DwellersSplit(dtos[1..], placed[1..], missing) {
        DwellersSplitSizes(dtos[1..], placed[1..], missing);
      } else {
        DwellersSplitSizes(dtos[1..], placed, missing[1..]);
      }
    }
  }

  /** One turn of the dweller loop leaves the woody-plant side of the pass
      alone and only extends what it records. */
  lemma DwellerStepFrame(p: Pass, w: WoodyPlantCard, dto: DwellerCardDto)
    ensures var p1 := DwellerStep(p, w, dto).0;
      p1.woodyPlants == p.woodyPlants && p1.unavailableWoodyPlants == p.unavailableWoodyPlants
      && p1.nextId == p.nextId && p1.deck.woodyPlants == p.deck.woodyPlants && p1.deck.caves == p.deck.caves
      && p.dwellers <= p1.dwellers && p.unavailableDwellers <= p1.unavailableDwellers
  {
  }

  /** The dweller loop leaves the woody-plant side of the pass alone and only
      extends what it records. */
  lemma {:induction false} PlaceDwellersFrame(p: Pass, w: WoodyPlantCard, dtos: seq<DwellerCardDto>)
    ensures var (q, _) := PlaceDwellers(p, w, dtos);
      q.woodyPlants == p.woodyPlants && q.unavailableWoodyPlants == p.unavailableWoodyPlants
      && q.nextId == p.nextId && q.deck.woodyPlants == p.deck.woodyPlants && q.deck.caves == p.deck.caves
      && p.dwellers <= q.dwellers && p.unavailableDwellers <= q.unavailableDwellers
    decreases |dtos|
  {
    if dtos != [] {
      var (p1, w1) := DwellerStep(p, w, dtos[0]);
      DwellerStepFrame(p, w, dtos[0]);
      PlaceDwellersFrame(p1, w1, dtos[1..]);
    }
  }

  /** Collect-all at dweller level: every dweller DTO, in order, either found
      a card equal to it or is listed as unavailable. */
  lemma {:induction false} PlaceDwellersAccounts(p: Pass, w: WoodyPlantCard, dtos: seq<DwellerCardDto>)
    ensures var (q, _) := PlaceDwellers(p, w, dtos);
      p.dwellers <= q.dwellers && p.unavailableDwellers <= q.unavailableDwellers
      && DwellersSplit(dtos, q.dwellers[|p.dwellers|..], q.unavailableDwellers[|p.unavailableDwellers|..])
    decreases |dtos|
  {
    if dtos == [] {
      assert p.dwellers[|p.dwellers|..] == [] && p.unavailableDwellers[|p.unavailableDwellers|..] == [];
    } else {
      var (p1, w1) := DwellerStep(p, w, dtos[0]);
      DwellerStepPlaces(p, w, dtos[0]);
      PlaceDwellersAccounts(p1, w1, dtos[1..]);
      var (q, _) := PlaceDwellers(p1, w1, dtos[1..]);
      assert PlaceDwellers(p, w, dtos).0 == q;
      SliceSplit(p.dwellers, p1.dwellers, q.dwellers);
      SliceSplit(p.unavailableDwellers, p1.unavailableDwellers, q.unavailableDwellers);
      if FindDwellerOfDto(p.deck.dwellers, dtos[0], p.dwellers).None? {
        assert p1.dwellers[|p.dwellers|..] == [];
        assert p1.unavailableDwellers[|p.unavailableDwellers|..] == [dtos[0]];
      } else {
        assert p1.dwellers[|p.dwellers|..] == [FindDwellerOfDto(p.deck.dwellers, dtos[0], p.dwellers).value];
        assert p1.unavailableDwellers[|p.unavailableDwellers|..] == [];
      }
    }
  }

  /** Pool ownership at dweller level, against the dweller pool `pool0` the
      pass started from: the deck's pool is `pool0` without exactly the
      dwellers found so far, every one of them came from `pool0`, and no id
      was found twice. */
  predicate DwellerPoolKept(pool0: seq<DwellerCard>, p: Pass) {
    p.deck.dwellers == WithoutIds(pool0, IdsOf(p.dwellers, IdOfDweller), IdOfDweller)
    && (forall d :: d in p.dwellers ==> d in pool0)
    && DistinctIds(p.dwellers, IdOfDweller)
  }

  lemma StartPassKeepsDwellerPool(deck: Deck, nextId: nat)
    ensures DwellerPoolKept(deck.dwellers, StartPass(deck, nextId))
  {
    WithoutNothing(deck.dwellers, IdOfDweller);
    assert IdsOf([], IdOfDweller) == {};
  }

  lemma DwellerStepKeepsPool(pool0: seq<DwellerCard>, p: Pass, w: WoodyPlantCard, dto: DwellerCardDto)
    requires DwellerPoolKept(pool0, p)
    ensures DwellerPoolKept(pool0, DwellerStep(p, w, dto).0)
  {
    var found := FindDwellerOfDto(p.deck.dwellers, dto, p.dwellers);
    if found.Some? {
      var d := found.value;
      assert d in p.deck.dwellers;
      TakeOne(pool0, p.dwellers, d, IdOfDweller);
      DistinctIdsSnoc(p.dwellers, d, IdOfDweller);
      var p1 := p.(dwellers := p.dwellers + [d],
                   deck := p.deck.(dwellers := WithoutIds(p.deck.dwellers, {d.id}, IdOfDweller)));
      assert DwellerStep(p, w, dto).0 == p1;
    }
  }

  /** Taking one more card `c` out of what is left of `pool0`. */
  lemma TakeOne<C(!new)>(pool0: seq<C>, taken: seq<C>, c: C, idOf: C -> CardId)
    ensures WithoutIds(WithoutIds(pool0, IdsOf(taken, idOf), idOf), {idOf(c)}, idOf)
         == WithoutIds(pool0, IdsOf(taken + [c], idOf), idOf)
  {
    IdsOfSnoc(taken, c, idOf);
    WithoutIdsTwice(pool0, IdsOf(taken, idOf), {idOf(c)}, idOf);
  }

  /** A card whose id is new keeps the ids distinct. */
  lemma DistinctIdsSnoc<C(!new)>(cs: seq<C>, c: C, idOf: C -> CardId)
    requires DistinctIds(cs, idOf) && idOf(c) !in IdsOf(cs, idOf)
    ensures DistinctIds(cs + [c], idOf)
  {
    forall i, j | 0 <= i < j < |cs + [c]|
      ensures idOf((cs + [c])[i]) != idOf((cs + [c])[j])
    {
      assert (cs + [c])[i] == cs[i];
      if j < |cs| {
        assert (cs + [c])[j] == cs[j];
      } else {
        assert cs[i] in cs;
      }
    }
  }

  lemma {:induction false} PlaceDwellersKeepsPool(pool0: seq<DwellerCard>, p: Pass, w: WoodyPlantCard, dtos: seq<DwellerCardDto>)
    requires DwellerPoolKept(pool0, p)
    ensures DwellerPoolKept(pool0, PlaceDwellers(p, w, dtos).0)
    decreases |dtos|
  {
    if dtos != [] {
      var (p1, w1) := DwellerStep(p, w, dtos[0]);
      DwellerStepKeepsPool(pool0, p, w, dtos[0]);
      PlaceDwellersKeepsPool(pool0, p1, w1, dtos[1..]);
    }
  }

  lemma IdsOfSnoc<C(!new)>(cards: seq<C>, c: C, idOf: C -> CardId)
    ensures IdsOf(cards + [c], idOf) == IdsOf(cards, idOf) + {idOf(c)}
  {
    assert forall x :: x in cards + [c] <==> x in cards || x == c;
  }

  lemma {:induction false} WithoutNothing<C(!new)>(pool: seq<C>, idOf: C -> CardId)
    ensures WithoutIds(pool, {}, idOf) == pool
  {
    if pool != [] {
      WithoutNothing(pool[1..], idOf);
      assert pool == [pool[0]] + pool[1..];
    }
  }

  lemma IdsOfCons<C(!new)>(c: C, rest: seq<C>, idOf: C -> CardId)
    ensures IdsOf([c] + rest, idOf) == {idOf(c)} + IdsOf(rest, idOf)
  {
    assert forall x :: x in [c] + rest <==> x == c || x in rest;
  }

  /** Placing `d` and then `rest` gains `d` followed by `rest`, slot by slot. */
  lemma SlotsGain(w: WoodyPlantCard, d: DwellerCard, w': WoodyPlantCard, rest: seq<DwellerCard>)
    requires forall position :: Slot(w', position) == Slot(PlaceInSlot(w, d), position) + InPosition(rest, position)
    ensures forall position :: Slot(w', position) == Slot(w, position) + InPosition([d] + rest, position)
  {
    forall position
      ensures Slot(w', position) == Slot(w, position) + InPosition([d] + rest, position)
    {
      SlotGainAt(w, d, w', rest, position);
    }
  }

  lemma SlotGainAt(w: WoodyPlantCard, d: DwellerCard, w': WoodyPlantCard, rest: seq<DwellerCard>, position: string)
    requires Slot(w', position) == Slot(PlaceInSlot(w, d), position) + InPosition(rest, position)
    ensures Slot(w', position) == Slot(w, position) + InPosition([d] + rest, position)
  {
    InPositionCons(d, rest, position);
    if d.position == position {
      assert Slot(PlaceInSlot(w, d), position) == Slot(w, position) + [d];
      assert Slot(w, position) + [d] + InPosition(rest, position) == Slot(w, position) + ([d] + InPosition(rest, position));
    } else {
      assert Slot(PlaceInSlot(w, d), position) == Slot(w, position);
      assert InPosition([d] + rest, position) == InPosition(rest, position);
    }
  }

  lemma InPositionCons(d: DwellerCard, rest: seq<DwellerCard>, position: string)
    ensures InPosition([d] + rest, position) == (if d.position == position then [d] else []) + InPosition(rest, position)
  {
    assert ([d] + rest)[1..] == rest;
  }

  /** Forest assembly for one woody plant: the plant keeps its identity and
      face, and each position slot gains, in DTO order, exactly the dwellers
      found for that position. */
  lemma {:induction false} PlaceDwellersSlots(p: Pass, w: WoodyPlantCard, dtos: seq<DwellerCardDto>)
    ensures var (q, w') := PlaceDwellers(p, w, dtos);
      p.dwellers <= q.dwellers
      && w'.id == w.id && w'.name == w.name && w'.gameBox == w.gameBox && w'.treeSymbol == w.treeSymbol
      && forall position :: Slot(w', position) == Slot(w, position) + InPosition(q.dwellers[|p.dwellers|..], position)
    decreases |dtos|
  {
    if dtos == [] {
      assert p.dwellers[|p.dwellers|..] == [];
      assert forall position :: Slot(w, position) + InPosition([], position) == Slot(w, position);
    } else {
      var (p1, w1) := DwellerStep(p, w, dtos[0]);
      DwellerStepPlaces(p, w, dtos[0]);
      PlaceDwellersSlots(p1, w1, dtos[1..]);
      var (q, w') := PlaceDwellers(p1, w1, dtos[1..]);
      assert PlaceDwellers(p, w, dtos) == (q, w');
      SliceSplit(p.dwellers, p1.dwellers, q.dwellers);
      var rest := q.dwellers[|p1.dwellers|..];
      var found := FindDwellerOfDto(p.deck.dwellers, dtos[0], p.dwellers);
      if found.None? {
        assert p1.dwellers[|p.dwellers|..] == [];
        assert q.dwellers[|p.dwellers|..] == rest;
      } else {
        var d := found.value;
        assert p1.dwellers[|p.dwellers|..] == [d];
        SlotsGain(w, d, w', rest);
      }
    }
  }

  lemma SliceSplit<T>(a: seq<T>, b: seq<T>, c: seq<T>)
    requires a <= b && b <= c
    ensures c[|a|..] == b[|a|..] + c[|b|..]
  {
    assert c[..|b|] == b;
  }

  /** What one turn of the dweller loop records and does to the woody plant. */
  lemma DwellerStepPlaces(p: Pass, w: WoodyPlantCard, dto: DwellerCardDto)
    ensures var (p1, w1) := DwellerStep(p, w, dto);
      var found := FindDwellerOfDto(p.deck.dwellers, dto, p.dwellers);
      (found.None? ==>
         p1.dwellers == p.dwellers && p1.unavailableDwellers == p.unavailableDwellers + [dto] && w1 == w)
      && (found.Some? ==>
            p1.dwellers == p.dwellers + [found.value] && p1.unavailableDwellers == p.unavailableDwellers
            && w1 == PlaceInSlot(w, found.value) && DwellerMatches(found.value, dto))
  {
  }
}
