// The state manager: the authoritative maps behind the engine, changed in place.
// Deleting a key is modelled as removing it from its map.
module StateStore {
  import opened Types
  import opened Queues
  import opened Matching
  import opened Exchange

  class StateManager {
    var orders: OrderMap
    var active: ActiveLists
    var nextId: u64
    var markets: map<u32, Market>
    var marketList: seq<u32>
    var positions: PositionMap
    // market -> accounts holding a position there
    var positionIndex: map<u32, set<Address>>
    var balances: map<BalanceKey, u128>
    var version: u64
    ghost var log: seq<Fill>

    ghost function View(): (s: State)
      reads this
    {
      State(orders, active, nextId, markets, marketList, positions, balances, log)
    }

    function Holders(market: u32): (r: set<Address>)
      reads this
    {
      if market in positionIndex then positionIndex[market] else {}
    }

    // The position index lists exactly the accounts with a stored position.
    ghost predicate IndexAgrees()
      reads this
    {
      forall a: Address, m: u32 :: a in Holders(m) <==> PositionKey(a, m) in positions
    }

    constructor ()
      ensures View() == EMPTY && IndexAgrees()
    {
      orders, active, nextId, markets, marketList := map[], map[], 0, map[], [];
      positions, positionIndex, balances, version, log := map[], map[], map[], 0, [];
    }

    method SetOrder(id: u64, order: Order)
      modifies this`orders
      ensures orders == old(orders)[id := order]
    {
      orders := orders[id := order];
    }

    method AddActiveOrder(market: u32, id: u64)
      modifies this`active
      ensures active == AddActive(old(active), market, id)
    {
      var ids := ActiveOf(active, market);
      if id !in ids {
        active := active[market := ids + [id]];
      }
    }

    method RemoveActiveOrder(market: u32, id: u64)
      modifies this`active
      ensures active == RemoveActive(old(active), market, id)
    {
      active := active[market := Without(ActiveOf(active, market), id)];
    }

    method NextOrderId() returns (r: Result<u64>)
      modifies this`nextId
      ensures old(nextId) + 1 < U64 ==> r == Ok(old(nextId)) && nextId == old(nextId) + 1
      ensures old(nextId) + 1 >= U64 ==> r == Err(Other) && nextId == old(nextId)
    {
      if nextId + 1 >= U64 {
        return Err(Other);
      }
      r := Ok(nextId);
      nextId := nextId + 1;
    }

    method SetMarket(id: u32, market: Market)
      modifies this`markets, this`marketList
      ensures View() == Exchange.SetMarket(old(View()), id, market)
    {
      markets := markets[id := market];
      if id !in marketList {
        marketList := marketList + [id];
      }
    }

    method SetPosition(k: PositionKey, p: Position)
      requires IndexAgrees()
      modifies this`positions, this`positionIndex
      ensures positions == old(positions)[k := p] && IndexAgrees()
    {
      positions := positions[k := p];
      positionIndex := positionIndex[k.market := Holders(k.market) + {k.owner}];
      assert forall j :: j in positions <==> j == k || j in old(positions);
    }

    method DeletePosition(k: PositionKey)
      requires IndexAgrees()
      modifies this`positions, this`positionIndex
      ensures positions == old(positions) - {k} && IndexAgrees()
    {
      positions := positions - {k};
      if k.market in positionIndex {
        var left := positionIndex[k.market] - {k.owner};
        positionIndex := if left == {} then positionIndex - {k.market} else positionIndex[k.market := left];
      }
      forall a: Address, m: u32 ensures a in Holders(m) <==> PositionKey(a, m) in positions {
        assert a in old(Holders(m)) <==> PositionKey(a, m) in old(positions);
        assert a in Holders(m) <==> a in old(Holders(m)) && PositionKey(a, m) != k;
      }
    }

    method PutPosition(k: PositionKey, p: Option<Position>)
      requires IndexAgrees()
      modifies this`positions, this`positionIndex
      ensures positions == Exchange.PutPosition(old(positions), k, p) && IndexAgrees()
    {
      match p
      case Some(q) => SetPosition(k, q);
      case None => DeletePosition(k);
    }
  }
}
