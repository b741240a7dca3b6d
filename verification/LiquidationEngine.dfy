// The liquidation engine in place: risk index, liquidations and auto-deleveraging over the state.
module LiquidationEngine {
  import opened Types
  import PriceLevels
  import opened AccountRuns
  import opened Positions
  import opened PositionRuns
  import opened Liquidation
  import opened Exchange
  import opened Invariants
  import opened StateStore
  import opened Trading

  // Total payouts are a plain counter.
  datatype InsuranceFund = InsuranceFund(balance: u128, contributions: u128, payouts: nat)

  const NO_FUND := InsuranceFund(0, 0, 0)

  // What one liquidation moves.
  datatype Liquidated = Liquidated(
    trader: Address,
    market: u32,
    size: u64,
    price: u64,
    fee: u128,
    remainingEquity: u128,
    liquidator: Address,
    reward: u128,
    contribution: u128,
    usage: u128)

  datatype PositionRisk = PositionRisk(trader: Address, ratio: u32)

  // ---------------------------------------------------------------------------
  // The risk index
  // ---------------------------------------------------------------------------

  ghost predicate DistinctTraders(risks: seq<PositionRisk>) {
    forall i, j :: 0 <= i < j < |risks| ==> risks[i].trader != risks[j].trader
  }

  ghost predicate RiskOf(ps: PositionMap, market: u32, mark: u64, r: PositionRisk) {
    var k := PositionKey(r.trader, market);
    k in ps && ps[k].size > 0 && MarginRatio(ps[k], mark) == Ok(r.ratio)
  }

  // Every entry is an account with a position of non-zero size, listed once, at its current margin ratio.
  ghost predicate IndexPartial(risks: seq<PositionRisk>, ps: PositionMap, market: u32, mark: u64) {
    DistinctTraders(risks) && forall r :: r in risks ==> RiskOf(ps, market, mark, r)
  }

  // And every such account has an entry.
  ghost predicate IndexCurrent(risks: seq<PositionRisk>, ps: PositionMap, market: u32, mark: u64) {
    && IndexPartial(risks, ps, market, mark)
    && (forall k :: k in ps && k.market == market && ps[k].size > 0 ==> exists r :: r in risks && r.trader == k.owner)
  }

  ghost predicate AllComputable(ps: PositionMap, market: u32, mark: u64) {
    forall k :: k in ps && k.market == market && ps[k].size > 0 ==> MarginRatio(ps[k], mark).Ok?
  }

  ghost predicate Liquidatable(ps: PositionMap, market: u32, mark: u64, bps: u32, trader: Address) {
    ShouldLiquidate(PositionOf(ps, PositionKey(trader, market)), mark, bps) == Ok(true)
  }

  // A current index, filtered at a threshold, lists exactly the accounts the liquidation test accepts, once each.
  lemma FilteredIndexIsLiquidatable(risks: seq<PositionRisk>, ps: PositionMap, market: u32, mark: u64, bps: u32,
                                    trader: Address)
    requires IndexCurrent(risks, ps, market, mark)
    ensures (exists r :: r in risks && r.trader == trader && r.ratio < bps) <==>
            Liquidatable(ps, market, mark, bps, trader)
  {
    var k := PositionKey(trader, market);
    if Liquidatable(ps, market, mark, bps, trader) {
      var r :| r in risks && r.trader == k.owner;
      assert RiskOf(ps, market, mark, r);
    }
    if r :| r in risks && r.trader == trader && r.ratio < bps {
      assert RiskOf(ps, market, mark, r);
    }
  }

  // ---------------------------------------------------------------------------
  // One liquidation
  // ---------------------------------------------------------------------------

  ghost predicate SameElsewhere(ps: PositionMap, ps': PositionMap, k: PositionKey) {
    forall j :: j != k ==> PositionOf(ps', j) == PositionOf(ps, j)
  }

  lemma ElsewhereSame(ps: PositionMap, k: PositionKey)
    ensures SameElsewhere(ps, ps, k)
  {
  }

  lemma CutShrinks(ps: PositionMap, k: PositionKey, size: u64)
    requires k in ps && AfterCut(ps[k], size).Ok?
    ensures var ps' := PutPosition(ps, k, AfterCut(ps[k], size).value);
            OnlyShrunk(ps, ps') && SameElsewhere(ps, ps', k)
  {
    hide AfterCut, PutPosition;
    var ps' := PutPosition(ps, k, AfterCut(ps[k], size).value);
    forall j: PositionKey ensures Shrunk(PositionOf(ps, j), PositionOf(ps', j)) {
      assert j == k ==> AfterCut(ps[k], size) == Ok(PositionOf(ps', k));
    }
  }

  // The liquidation test at the tick-rounded mark price.
  ghost predicate Accepted(s: State, trader: Address, market: u32, mark: u64) {
    && mark > 0 && market in s.markets
    && var m := s.markets[market];
       && ShouldLiquidate(PositionOf(s.positions, PositionKey(trader, market)), NormalizePrice(m.tickSize, mark),
                          m.maintenanceBps) == Ok(true)
  }

  function BalanceIn(balances: map<BalanceKey, u128>, owner: Address, asset: u32): (r: u128) {
    var k := BalanceKey(owner, asset);
    if k in balances then balances[k] else 0
  }

  // Balances after the liquidator's reward and, if there is any, the trader's remaining equity.
  ghost predicate Credited(before: map<BalanceKey, u128>, after: map<BalanceKey, u128>, asset: u32,
                           liquidator: Address, reward: nat, trader: Address, refund: nat)
  {
    forall o: Address, a: u32 :: BalanceIn(after, o, a) == BalanceIn(before, o, a)
      + (if a == asset && o == liquidator then reward else 0) + (if a == asset && o == trader then refund else 0)
  }

  lemma CreditedOnce(before: map<BalanceKey, u128>, after: map<BalanceKey, u128>, asset: u32,
                     liquidator: Address, reward: nat, trader: Address)
    requires Credited(before, after, asset, liquidator, reward, liquidator, 0)
    ensures Credited(before, after, asset, liquidator, reward, trader, 0)
  {
  }

  lemma CreditedTo(before: map<BalanceKey, u128>, after: map<BalanceKey, u128>, asset: u32,
                   liquidator: Address, reward: nat, trader: Address)
    requires Credited(before, after, asset, liquidator, reward, liquidator, 0)
    ensures BalanceIn(after, trader, asset)
         == BalanceIn(before, trader, asset) + (if trader == liquidator then reward else 0)
  {
  }

  lemma CreditedBoth(before: map<BalanceKey, u128>, mid: map<BalanceKey, u128>, after: map<BalanceKey, u128>,
                     asset: u32,
                     liquidator: Address, reward: nat, trader: Address, refund: nat)
    requires Credited(before, mid, asset, liquidator, reward, trader, 0)
    requires Credited(mid, after, asset, trader, refund, trader, 0)
    ensures Credited(before, after, asset, liquidator, reward, trader, refund)
  {
  }

  // The amounts of one liquidation, from the position, the price and the fund's balance.
  ghost predicate Assessed(p: Position, price: u64, m: Market, liquidatorBps: u32, insuranceBps: u32,
                           partialEnabled: bool,
                           fundBalance: u128, res: Liquidated)
  {
    var equity := Max(0, p.margin + SignedPnl(p, price));
    && res.price == price
    && (if partialEnabled then PartialSize(p, price, m) == Ok(res.size) else res.size == p.size)
    && res.fee == (res.size * price * m.liquidationFeeBps) / BASIS_POINTS
    && res.reward == (res.fee * liquidatorBps) / BASIS_POINTS
    && res.contribution == (res.fee * insuranceBps) / BASIS_POINTS
    && res.remainingEquity == SaturatingSub(equity, res.fee)
    && res.usage == Min(fundBalance, SaturatingSub(res.fee, equity))
  }

  // What the amounts compute stays in u128.
  predicate AssessFits(p: Position, price: u64, m: Market, liquidatorBps: u32, insuranceBps: u32, partialEnabled: bool)
  {
    var taken := if partialEnabled then PartialSize(p, price, m) else Ok(p.size);
    && (partialEnabled ==> PartialFits(p, price, m)) && taken.Ok?
    && p.margin + SignedPnl(p, price) < U128
    && taken.value * price * m.liquidationFeeBps < U128
    && var fee := taken.value * price * m.liquidationFeeBps / BASIS_POINTS;
       fee * liquidatorBps < U128 && fee * insuranceBps < U128
  }

  lemma FeesNonNegative(size: u64, price: u64, feeBps: u32, liquidatorBps: u32, insuranceBps: u32)
    ensures size * price * feeBps >= 0
    ensures var fee := size * price * feeBps / BASIS_POINTS;
            fee >= 0 && fee * liquidatorBps >= 0 && fee * insuranceBps >= 0
  {
    ShareNonNegative(size, price);
    ShareNonNegative(size * price, feeBps);
    var fee := size * price * feeBps / BASIS_POINTS;
    ShareNonNegative(fee, liquidatorBps);
    ShareNonNegative(fee, insuranceBps);
  }

  ghost predicate FundMoved(fund: InsuranceFund, res: Liquidated, fund': InsuranceFund) {
    && fund'.balance == fund.balance - res.usage + res.contribution
    && fund'.contributions == fund.contributions + res.contribution
    && fund'.payouts == fund.payouts + res.usage
  }

  // Everything a successful settlement does, starting from a state whose orders are already cancelled.
  ghost predicate SettledFrom(s: State, fund: InsuranceFund, liquidatorBps: u32, insuranceBps: u32,
                              partialEnabled: bool, m: Market,
                              trader: Address, market: u32, price: u64, liquidator: Address, res: Liquidated,
                                  s': State, fund': InsuranceFund)
  {
    var k := PositionKey(trader, market);
    && k in s.positions
    && res.trader == trader && res.market == market && res.liquidator == liquidator
    && Assessed(s.positions[k], price, m, liquidatorBps, insuranceBps, partialEnabled, fund.balance, res)
    && AfterCut(s.positions[k], res.size).Ok?
    && s' == s.(positions := PutPosition(s.positions, k, AfterCut(s.positions[k], res.size).value),
                balances := s'.balances)
    && Credited(s.balances, s'.balances, m.quoteAsset, liquidator, res.reward, trader, res.remainingEquity)
    && FundMoved(fund, res, fund')
  }

  // Every payout stays in u128, the refund on top of the reward where one account gets both.
  predicate PayoutFits(balances: map<BalanceKey, u128>, asset: u32, fundBalance: int, contributions: nat,
                       res: Liquidated)
  {
    && BalanceIn(balances, res.liquidator, asset) + res.reward < U128
    && fundBalance + res.contribution < U128 && contributions + res.contribution < U128
    && (res.remainingEquity > 0 ==>
          BalanceIn(balances, res.trader, asset) + (if res.trader == res.liquidator then res.reward else 0)
          + res.remainingEquity < U128)
  }

  lemma CoveredFields(fund: InsuranceFund, res: Liquidated, covered: InsuranceFund)
    requires FundMoved(fund, res.(contribution := 0), covered)
    ensures covered.balance == fund.balance - res.usage && covered.contributions == fund.contributions
  {
  }

  // How far the payouts got before one of them left u128: the reward first, then the contribution; what is left
  // of the trader's equity is never paid then.
  ghost predicate PaidUpTo(before: map<BalanceKey, u128>, after: map<BalanceKey, u128>, asset: u32,
                           fund: InsuranceFund, fund': InsuranceFund, res: Liquidated)
  {
    || (after == before && fund' == fund)
    || (Credited(before, after, asset, res.liquidator, res.reward, res.trader, 0) &&
        (fund' == fund || FundMoved(fund, res.(usage := 0), fund')))
  }

  // A settlement goes through: its amounts, the cut of the position and the payouts all stay in u128.
  ghost predicate Settles(s: State, fund: InsuranceFund, liquidatorBps: u32, insuranceBps: u32,
                          partialEnabled: bool, m: Market, trader: Address, market: u32, price: u64,
                          liquidator: Address)
    requires PositionKey(trader, market) in s.positions
  {
    var p := s.positions[PositionKey(trader, market)];
    && AssessFits(p, price, m, liquidatorBps, insuranceBps, partialEnabled)
    && exists res: Liquidated ::
         && res.trader == trader && res.market == market && res.liquidator == liquidator
         && Assessed(p, price, m, liquidatorBps, insuranceBps, partialEnabled, fund.balance, res)
         && CutFits(p, res.size)
         && PayoutFits(s.balances, m.quoteAsset, fund.balance - res.usage, fund.contributions, res)
  }

  // The amounts are determined, so one set of them decides.
  lemma SettlesBy(s: State, fund: InsuranceFund, liquidatorBps: u32, insuranceBps: u32, partialEnabled: bool,
                  m: Market, trader: Address, market: u32, price: u64, liquidator: Address, res: Liquidated)
    requires PositionKey(trader, market) in s.positions
    requires res.trader == trader && res.market == market && res.liquidator == liquidator
    requires var p := s.positions[PositionKey(trader, market)];
             && AssessFits(p, price, m, liquidatorBps, insuranceBps, partialEnabled)
             && Assessed(p, price, m, liquidatorBps, insuranceBps, partialEnabled, fund.balance, res)
    ensures Settles(s, fund, liquidatorBps, insuranceBps, partialEnabled, m, trader, market, price, liquidator)
       <==> CutFits(s.positions[PositionKey(trader, market)], res.size) &&
            PayoutFits(s.balances, m.quoteAsset, fund.balance - res.usage, fund.contributions, res)
  {
    hide AssessFits, CutFits, PayoutFits, Assessed;
    var p := s.positions[PositionKey(trader, market)];
    forall other: Liquidated |
      && other.trader == trader && other.market == market && other.liquidator == liquidator
      && Assessed(p, price, m, liquidatorBps, insuranceBps, partialEnabled, fund.balance, other)
      ensures other == res
    {
      AssessedOnce(p, price, m, liquidatorBps, insuranceBps, partialEnabled, fund.balance, res, other);
    }
  }

  lemma AssessedOnce(p: Position, price: u64, m: Market, liquidatorBps: u32, insuranceBps: u32, partialEnabled: bool,
                     fundBalance: u128, res: Liquidated, other: Liquidated)
    requires Assessed(p, price, m, liquidatorBps, insuranceBps, partialEnabled, fundBalance, res)
    requires Assessed(p, price, m, liquidatorBps, insuranceBps, partialEnabled, fundBalance, other)
    requires other.trader == res.trader && other.market == res.market && other.liquidator == res.liquidator
    ensures other == res
  {
    hide PartialSize;
  }

  // Where a settlement that fails has stopped: at the amounts, at the position, or at the payouts.
  ghost predicate StoppedFrom(s: State, fund: InsuranceFund, liquidatorBps: u32, insuranceBps: u32,
                              partialEnabled: bool, m: Market,
                              trader: Address, market: u32, price: u64, liquidator: Address,
                              s': State, fund': InsuranceFund)
  {
    || (s' == s && fund' == fund)
    || (exists res: Liquidated, covered: InsuranceFund ::
          StoppedAfter(s, fund, liquidatorBps, insuranceBps, partialEnabled, m, trader, market, price, liquidator, res,
                       covered, s', fund'))
  }

  // The fund has covered its share of the shortfall; the position is as it was, or taken down and perhaps the
  // reward and the contribution paid.
  ghost predicate StoppedAfter(s: State, fund: InsuranceFund, liquidatorBps: u32, insuranceBps: u32,
                               partialEnabled: bool, m: Market,
                               trader: Address, market: u32, price: u64, liquidator: Address, res: Liquidated,
                               covered: InsuranceFund, s': State, fund': InsuranceFund)
  {
    var k := PositionKey(trader, market);
    && k in s.positions
    && res.trader == trader && res.market == market && res.liquidator == liquidator
    && Assessed(s.positions[k], price, m, liquidatorBps, insuranceBps, partialEnabled, fund.balance, res)
    && FundMoved(fund, res.(contribution := 0), covered)
    && match AfterCut(s.positions[k], res.size)
       case Err(_) => s' == s && fund' == covered
       case Ok(q) =>
         && s' == s.(positions := PutPosition(s.positions, k, q), balances := s'.balances)
         && PaidUpTo(s.balances, s'.balances, m.quoteAsset, covered, fund', res)
  }

  // The pieces of a settlement put together.
  lemma SettledHolds(s: State, fund: InsuranceFund, liquidatorBps: u32, insuranceBps: u32, partialEnabled: bool,
                     m: Market,
                     trader: Address, market: u32, price: u64, liquidator: Address, res: Liquidated,
                     covered: InsuranceFund, s': State, fund': InsuranceFund)
    requires var k := PositionKey(trader, market);
             && k in s.positions
             && res.trader == trader && res.market == market && res.liquidator == liquidator
             && Assessed(s.positions[k], price, m, liquidatorBps, insuranceBps, partialEnabled, fund.balance, res)
             && AfterCut(s.positions[k], res.size).Ok?
             && s' == s.(positions := PutPosition(s.positions, k, AfterCut(s.positions[k], res.size).value),
                         balances := s'.balances)
    requires Credited(s.balances, s'.balances, m.quoteAsset, liquidator, res.reward, trader, res.remainingEquity)
    requires FundMoved(fund, res.(contribution := 0), covered) && FundMoved(covered, res.(usage := 0), fund')
    ensures SettledFrom(s, fund, liquidatorBps, insuranceBps, partialEnabled, m, trader, market, price, liquidator,
                        res, s', fund')
  {
    hide Assessed, AfterCut, Credited, PutPosition;
  }

  lemma StoppedHolds(s: State, fund: InsuranceFund, liquidatorBps: u32, insuranceBps: u32, partialEnabled: bool,
                     m: Market,
                     trader: Address, market: u32, price: u64, liquidator: Address, res: Liquidated,
                     covered: InsuranceFund, s': State, fund': InsuranceFund)
    requires var k := PositionKey(trader, market);
             && k in s.positions
             && res.trader == trader && res.market == market && res.liquidator == liquidator
             && Assessed(s.positions[k], price, m, liquidatorBps, insuranceBps, partialEnabled, fund.balance, res)
             && FundMoved(fund, res.(contribution := 0), covered)
             && (AfterCut(s.positions[k], res.size).Err? ==> s' == s && fund' == covered)
             && (AfterCut(s.positions[k], res.size).Ok? ==>
                 && s' == s.(positions := PutPosition(s.positions, k, AfterCut(s.positions[k], res.size).value),
                             balances := s'.balances)
                 && PaidUpTo(s.balances, s'.balances, m.quoteAsset, covered, fund', res))
    ensures StoppedFrom(s, fund, liquidatorBps, insuranceBps, partialEnabled, m, trader, market, price, liquidator,
                        s', fund')
  {
    hide Assessed, AfterCut, Credited, PutPosition, PaidUpTo, FundMoved;
    assert StoppedAfter(s, fund, liquidatorBps, insuranceBps, partialEnabled, m, trader, market, price, liquidator,
                        res, covered, s', fund');
  }

  ghost predicate LiquidatedFrom(s: State, fund: InsuranceFund, liquidatorBps: u32, insuranceBps: u32,
                                 partialEnabled: bool,
                                 trader: Address, market: u32, mark: u64, liquidator: Address, res: Liquidated,
                                     s': State, fund': InsuranceFund)
  {
    && market in s.markets
    && SettledFrom(CancelTrader(s, trader, market), fund, liquidatorBps, insuranceBps, partialEnabled,
                   s.markets[market],
                   trader, market, NormalizePrice(s.markets[market].tickSize, mark), liquidator, res, s', fund')
  }

  // A liquidation attempt goes through: price and market are there, the test is computable, and where it
  // accepts, so does the settlement.
  ghost predicate Liquidates(s: State, fund: InsuranceFund, liquidatorBps: u32, insuranceBps: u32,
                             partialEnabled: bool, trader: Address, market: u32, mark: u64, liquidator: Address)
  {
    var k := PositionKey(trader, market);
    && mark > 0 && market in s.markets
    && (k in s.positions ==> RatioFits(s.positions[k], NormalizePrice(s.markets[market].tickSize, mark)))
    && (Accepted(s, trader, market, mark) ==>
          && k in CancelTrader(s, trader, market).positions
          && Settles(CancelTrader(s, trader, market), fund, liquidatorBps, insuranceBps, partialEnabled,
                     s.markets[market], trader, market, NormalizePrice(s.markets[market].tickSize, mark), liquidator))
  }

  // After an error: nothing, or the trader's orders cancelled and the settlement stopped part of the way.
  ghost predicate FailedFrom(s: State, fund: InsuranceFund, liquidatorBps: u32, insuranceBps: u32,
                             partialEnabled: bool,
                             trader: Address, market: u32, mark: u64, liquidator: Address,
                             s': State, fund': InsuranceFund)
  {
    if Accepted(s, trader, market, mark) then
      StoppedFrom(CancelTrader(s, trader, market), fund, liquidatorBps, insuranceBps, partialEnabled,
                  s.markets[market], trader, market, NormalizePrice(s.markets[market].tickSize, mark), liquidator,
                  s', fund')
    else s' == s && fund' == fund
  }

  lemma NothingToTest(mark: u64, bps: u32)
    ensures ShouldLiquidate(None, mark, bps) == Ok(false)
  {
  }

  lemma AcceptedHolds(s: State, trader: Address, market: u32, mark: u64)
    requires Accepted(s, trader, market, mark)
    ensures PositionKey(trader, market) in s.positions
  {
  }

  lemma SettledIsLiquidated(s: State, fund: InsuranceFund, liquidatorBps: u32, insuranceBps: u32, partialEnabled: bool,
                            trader: Address, market: u32, mark: u64, liquidator: Address, res: Liquidated, s': State,
                                fund': InsuranceFund)
    requires market in s.markets
    requires SettledFrom(CancelTrader(s, trader, market), fund, liquidatorBps, insuranceBps, partialEnabled,
                         s.markets[market],
                         trader, market, NormalizePrice(s.markets[market].tickSize, mark), liquidator, res, s', fund')
    ensures LiquidatedFrom(s, fund, liquidatorBps, insuranceBps, partialEnabled, trader, market, mark, liquidator,
                           res, s', fund')
  {
  }

  lemma UsageBounded(p: Position, price: u64, m: Market, liquidatorBps: u32, insuranceBps: u32, partialEnabled: bool,
                     fundBalance: u128, res: Liquidated)
    requires Assessed(p, price, m, liquidatorBps, insuranceBps, partialEnabled, fundBalance, res)
    ensures res.usage <= fundBalance
  {
  }

  lemma RebalanceInv(s: State, ps: PositionMap, balances: map<BalanceKey, u128>)
    requires Inv(s)
    ensures Inv(s.(positions := ps, balances := balances))
  {
    NextInv(s, Rebalance(ps, balances));
  }

  // Filtering a current index gives the liquidatable accounts, each once.
  lemma ListedAreLiquidatable(risks: seq<PositionRisk>, ps: PositionMap, market: u32, mark: u64, bps: u32,
                              listed: seq<Address>)
    requires forall a :: a in listed <==> exists r :: r in risks && r.trader == a && r.ratio < bps
    requires DistinctTraders(risks) ==> forall i, j :: 0 <= i < j < |listed| ==> listed[i] != listed[j]
    ensures IndexCurrent(risks, ps, market, mark) ==>
              && (forall i, j :: 0 <= i < j < |listed| ==> listed[i] != listed[j])
              && forall a :: a in listed <==> Liquidatable(ps, market, mark, bps, a)
  {
    if IndexCurrent(risks, ps, market, mark) {
      forall a ensures a in listed <==> Liquidatable(ps, market, mark, bps, a) {
        FilteredIndexIsLiquidatable(risks, ps, market, mark, bps, a);
      }
    }
  }

  // At a price that rounds to itself every listed account, each listed once, is liquidatable.
  ghost predicate EachLiquidatable(s: State, market: u32, mark: u64, traders: seq<Address>) {
    && market in s.markets && mark > 0 && NormalizePrice(s.markets[market].tickSize, mark) == mark
    && (forall i, j :: 0 <= i < j < |traders| ==> traders[i] != traders[j])
    && (forall i :: 0 <= i < |traders| ==>
        Liquidatable(s.positions, market, mark, s.markets[market].maintenanceBps, traders[i]))
  }

  // Only the listed accounts' positions in the market may have moved.
  ghost predicate MovedOnly(ps: PositionMap, ps': PositionMap, market: u32, moved: seq<Address>) {
    forall a :: a !in moved ==> PositionOf(ps', PositionKey(a, market)) == PositionOf(ps, PositionKey(a, market))
  }

  lemma MovedOneMore(ps: PositionMap, now: PositionMap, after: PositionMap, market: u32, traders: seq<Address>, i: nat)
    requires i < |traders| && MovedOnly(ps, now, market, traders[..i])
    requires SameElsewhere(now, after, PositionKey(traders[i], market))
    ensures MovedOnly(ps, after, market, traders[..i + 1])
  {
    assert traders[..i + 1] == traders[..i] + [traders[i]];
  }

  lemma NoneMoved(ps: PositionMap, market: u32)
    ensures MovedOnly(ps, ps, market, [])
  {
  }

  // An account whose turn comes has not moved, so the engine accepts it.
  lemma TurnAccepted(s: State, now: State, market: u32, mark: u64, traders: seq<Address>, i: nat)
    requires EachLiquidatable(s, market, mark, traders) && i < |traders|
    requires now.markets == s.markets && MovedOnly(s.positions, now.positions, market, traders[..i])
    ensures Accepted(now, traders[i], market, mark)
  {
    hide ShouldLiquidate;
    assert traders[i] !in traders[..i];
    assert Liquidatable(s.positions, market, mark, s.markets[market].maintenanceBps, traders[i]);
  }

  class Liquidator {
    var atRisk: map<u32, seq<PositionRisk>>
    var funds: map<u32, InsuranceFund>
    var liquidatorBps: u32
    var insuranceBps: u32
    var partialEnabled: bool
    var adlEnabled: bool

    constructor ()
      ensures atRisk == map[] && funds == map[] && liquidatorBps == 5000 && insuranceBps == 5000
      ensures partialEnabled && adlEnabled
    {
      atRisk, funds, liquidatorBps, insuranceBps, partialEnabled, adlEnabled := map[], map[], 5000, 5000, true, true;
    }

    function Risks(market: u32): (r: seq<PositionRisk>)
      reads this
    {
      if market in atRisk then atRisk[market] else []
    }

    function Fund(market: u32): (r: InsuranceFund)
      reads this
    {
      if market in funds then funds[market] else NO_FUND
    }

    // Recompute the index of a market from its positions, in whatever order the holders come.
    method RebuildRiskIndex(state: StateManager, market: u32, mark: u64) returns (r: Result<()>)
      requires state.IndexAgrees()
      modifies this`atRisk
      ensures r.Ok? ==> IndexCurrent(Risks(market), state.positions, market, mark)
      ensures r.Ok? <==> AllComputable(state.positions, market, mark)
      ensures r.Err? ==> r.error == Overflow && IndexPartial(Risks(market), state.positions, market, mark)
    {
      var risks: seq<PositionRisk> := [];
      var holders := state.Holders(market);
      var todo := holders;
      while todo != {}
        invariant todo <= holders && DistinctTraders(risks)
        invariant forall r :: r in risks ==> r.trader !in todo && RiskOf(state.positions, market, mark, r)
        invariant forall a: Address ::
                    a in holders && a !in todo && state.positions[PositionKey(a, market)].size > 0 ==>
                      exists r :: r in risks && r.trader == a
        decreases todo
      {
        var a :| a in todo;
        todo := todo - {a};
        var p := state.positions[PositionKey(a, market)];
        if p.size > 0 {
          var ratio := MarginRatio(p, mark);
          if ratio.Err? {
            atRisk := atRisk[market := risks];
            return Err(ratio.error);
          }
          ghost var before := risks;
          risks := risks + [PositionRisk(a, ratio.value)];
          assert PositionRisk(a, ratio.value) in risks;
          assert forall r :: r in before ==> r in risks;
        }
      }
      atRisk := atRisk[market := risks];
      r := Ok(());
    }

    // Accounts below the threshold.
    method GetAtRiskPositions(market: u32, threshold: u32) returns (traders: seq<Address>)
      ensures forall a :: a in traders <==> exists r :: r in Risks(market) && r.trader == a && r.ratio < threshold
      ensures DistinctTraders(Risks(market)) ==> forall i, j :: 0 <= i < j < |traders| ==> traders[i] != traders[j]
    {
      traders := [];
      var risks := Risks(market);
      var i := 0;
      while i < |risks|
        invariant 0 <= i <= |risks|
        invariant forall a :: a in traders <==>
                  exists j :: 0 <= j < i && risks[j].trader == a && risks[j].ratio < threshold
        invariant DistinctTraders(risks) ==> forall i, j :: 0 <= i < j < |traders| ==> traders[i] != traders[j]
      {
        if risks[i].ratio < threshold {
          assert DistinctTraders(risks) ==> risks[i].trader !in traders;
          assert forall j :: 0 <= j < |traders| ==> traders[j] in traders;
          traders := traders + [risks[i].trader];
        }
        i := i + 1;
      }
    }

    // Liquidate one position: cancel the trader's orders, take down part or all of the position, pay the
    // liquidator and the fund, return what equity is left.
    method LiquidateWithIncentive(engine: Engine, trader: Address, market: u32, mark: u64, liquidator: Address)
      returns (r: Result<Option<Liquidated>>)
      requires engine.Valid()
      modifies this`funds, engine.orderbook
      modifies engine.state`orders, engine.state`active, engine.state`positions, engine.state`positionIndex,
          engine.state`balances
      ensures engine.Valid()
      ensures SameElsewhere(old(engine.state.positions), engine.state.positions, PositionKey(trader, market))
      ensures OnlyShrunk(old(engine.state.positions), engine.state.positions)
      ensures ForcedTo(old(engine.state.View()), engine.state.View())
      ensures Accepted(old(engine.state.View()), trader, market, mark) ==>
                engine.state.View() == CancelTrader(old(engine.state.View()), trader, market)
                  .(positions := engine.state.positions, balances := engine.state.balances)
      ensures !Accepted(old(engine.state.View()), trader, market, mark) ==>
                engine.state.View() == old(engine.state.View()) && (r.Err? || r == Ok(None))
      ensures mark == 0 ==> r == Err(Other)
      ensures mark > 0 && market !in engine.state.markets ==> r == Err(MarketNotFound)
      ensures mark > 0 && market in engine.state.markets && r.Err? ==> r.error == Overflow
      ensures r.Ok? ==> (r.value.Some? <==> Accepted(old(engine.state.View()), trader, market, mark))
      ensures r.Ok? && r.value.Some? ==> r.value.value.trader == trader
      ensures engine.state.markets == old(engine.state.markets)
      ensures r.Ok? && r.value.Some? ==>
                LiquidatedFrom(old(engine.state.View()), old(Fund(market)), liquidatorBps, insuranceBps, partialEnabled,
                               trader, market, mark, liquidator, r.value.value, engine.state.View(), Fund(market))
      ensures r.Ok? && r.value.Some? ==>
                ForcedDown(old(engine.state.positions)[PositionKey(trader, market)],
                           PositionOf(engine.state.positions, PositionKey(trader, market)), r.value.value.size)
      ensures r.Ok? <==> Liquidates(old(engine.state.View()), old(Fund(market)), liquidatorBps, insuranceBps,
                                    partialEnabled, trader, market, mark, liquidator)
      ensures r.Err? ==>
                FailedFrom(old(engine.state.View()), old(Fund(market)), liquidatorBps, insuranceBps, partialEnabled,
                           trader, market, mark, liquidator, engine.state.View(), Fund(market))
    {
      hide Inv, PriceLevels.BookAgrees, ShouldLiquidate, CancelTrader, LiquidatedFrom, OnlyShrunk, SameElsewhere,
          ForcedTo, StoppedFrom, Settles, ForcedDown, RatioFits, NormalizePrice;
      ForcedNowhere(engine.state.View());
      SameShrunk(engine.state.positions);
      ElsewhereSame(engine.state.positions, PositionKey(trader, market));
      if mark == 0 {
        return Err(Other);
      }
      var state := engine.state;
      if market !in state.markets {
        return Err(MarketNotFound);
      }
      var m := state.markets[market];
      var price := NormalizePrice(m.tickSize, mark);
      var k := PositionKey(trader, market);
      if k in state.positions {
        ShouldLiquidateFits(state.positions[k], price, m.maintenanceBps);
      }
      NothingToTest(price, m.maintenanceBps);
      var liquidate :- ShouldLiquidate(PositionOf(state.positions, k), price, m.maintenanceBps);
      if !liquidate {
        return Ok(None);
      }
      AcceptedHolds(state.View(), trader, market, mark);
      ghost var s := state.View();
      var _ := engine.CancelTraderOrders(trader, market);
      CancelKeepsRest(s, trader, market);
      var settled := Settle(engine, m, trader, market, price, liquidator);
      LiquidationForced(s, trader, market, state.View());
      var res :- settled;
      SettledIsLiquidated(s, old(Fund(market)), liquidatorBps, insuranceBps, partialEnabled, trader, market, mark,
                          liquidator, res,
                          state.View(), Fund(market));
      r := Ok(Some(res));
    }

    method Assess(p: Position, price: u64, m: Market, fundBalance: u128, trader: Address, market: u32,
                  liquidator: Address)
      returns (r: Result<Liquidated>)
      ensures r.Err? ==> r.error == Overflow
      ensures r.Ok? <==> AssessFits(p, price, m, liquidatorBps, insuranceBps, partialEnabled)
      ensures r.Ok? ==> Assessed(p, price, m, liquidatorBps, insuranceBps, partialEnabled, fundBalance, r.value)
      ensures r.Ok? ==> r.value.trader == trader && r.value.market == market && r.value.liquidator == liquidator
    {
      hide PartialSize, PartialFits, SignedPnl, Pnl;
      PartialSizeFits(p, price, m);
      var size := p.size;
      if partialEnabled {
        size :- PartialSize(p, price, m);
      }
      FeesNonNegative(size, price, m.liquidationFeeBps, liquidatorBps, insuranceBps);
      var scaledFee :- Checked(size * price * m.liquidationFeeBps);
      var fee := scaledFee / BASIS_POINTS;
      var scaledReward :- Checked(fee * liquidatorBps);
      var scaledContribution :- Checked(fee * insuranceBps);
      var equity :- Equity(p, price);
      var usage := if equity < fee then Min(fundBalance, fee - equity) else 0;
      r := Ok(Liquidated(trader, market, size, price, fee, SaturatingSub(equity, fee), liquidator,
                         scaledReward / BASIS_POINTS, scaledContribution / BASIS_POINTS, usage));
    }

    // Balances may move without disturbing orders, book or index.
    method Pay(engine: Engine, owner: Address, asset: u32, amount: u128) returns (r: Result<()>)
      requires engine.Valid()
      modifies engine.state`balances
      ensures engine.Valid()
      ensures r.Ok? ==> Credited(old(engine.state.balances), engine.state.balances, asset, owner, amount, owner, 0)
      ensures r.Ok? <==> BalanceIn(old(engine.state.balances), owner, asset) + amount < U128
      ensures r.Err? ==> r.error == Overflow && engine.state.balances == old(engine.state.balances)
    {
      hide Inv, PriceLevels.BookAgrees;
      var state := engine.state;
      ghost var s := state.View();
      var paid :- Checked(BalanceIn(state.balances, owner, asset) + amount);
      state.balances := state.balances[BalanceKey(owner, asset) := paid];
      RebalanceInv(s, state.positions, state.balances);
      r := Ok(());
    }

    // Liquidator first, then the fund, then what is left of the trader's equity.
    method Distribute(engine: Engine, m: Market, res: Liquidated) returns (r: Result<()>)
      requires engine.Valid()
      modifies this`funds, engine.state`balances
      ensures engine.Valid()
      ensures r.Ok? ==>
                && Credited(old(engine.state.balances), engine.state.balances, m.quoteAsset, res.liquidator,
                            res.reward, res.trader, res.remainingEquity)
                && FundMoved(old(Fund(res.market)), res.(usage := 0), Fund(res.market))
      ensures r.Ok? <==> PayoutFits(old(engine.state.balances), m.quoteAsset, old(Fund(res.market)).balance,
                                        old(Fund(res.market)).contributions, res)
      ensures r.Err? ==> r.error == Overflow
      ensures r.Err? ==>
                PaidUpTo(old(engine.state.balances), engine.state.balances, m.quoteAsset, old(Fund(res.market)),
                         Fund(res.market), res)
    {
      hide Inv, PriceLevels.BookAgrees, Credited;
      ghost var before := engine.state.balances;
      var _ :- Pay(engine, res.liquidator, m.quoteAsset, res.reward);
      ghost var rewarded := engine.state.balances;
      CreditedOnce(before, rewarded, m.quoteAsset, res.liquidator, res.reward, res.trader);
      CreditedTo(before, rewarded, m.quoteAsset, res.liquidator, res.reward, res.trader);
      var fund := Fund(res.market);
      var balance :- Checked(fund.balance + res.contribution);
      var contributions :- Checked(fund.contributions + res.contribution);
      funds := funds[res.market := InsuranceFund(balance, contributions, fund.payouts)];
      if res.remainingEquity > 0 {
        var _ :- Pay(engine, res.trader, m.quoteAsset, res.remainingEquity);
        CreditedBoth(before, rewarded, engine.state.balances, m.quoteAsset, res.liquidator, res.reward, res.trader,
                     res.remainingEquity);
      }
      r := Ok(());
    }

    // Force a position down by `size`.
    method TakeDown(engine: Engine, k: PositionKey, size: u64) returns (r: Result<()>)
      requires engine.Valid() && k in engine.state.positions
      modifies engine.state`positions, engine.state`positionIndex
      ensures engine.Valid()
      ensures OnlyShrunk(old(engine.state.positions), engine.state.positions)
      ensures SameElsewhere(old(engine.state.positions), engine.state.positions, k)
      ensures match AfterCut(old(engine.state.positions)[k], size)
              case Ok(q) => r.Ok? && engine.state.positions == PutPosition(old(engine.state.positions), k, q)
              case Err(e) => r == Err(e) && engine.state.positions == old(engine.state.positions)
      ensures r.Ok? <==> CutFits(old(engine.state.positions)[k], size)
      ensures r.Ok? ==> ForcedDown(old(engine.state.positions)[k], PositionOf(engine.state.positions, k), size)
    {
      ForcedDownExactly(engine.state.positions[k], size);
      hide Inv, PriceLevels.BookAgrees, ForcedDown, CutFits, AfterCut, OnlyShrunk, PutPosition;
      ghost var s := engine.state.View();
      SameShrunk(s.positions);
      var left :- AfterCut(engine.state.positions[k], size);
      CutShrinks(s.positions, k, size);
      engine.state.PutPosition(k, left);
      RebalanceInv(s, engine.state.positions, engine.state.balances);
      r := Ok(());
    }

    // The amounts, with the fund's share of a shortfall already taken from it.
    method Cover(p: Position, price: u64, m: Market, trader: Address, market: u32, liquidator: Address)
      returns (r: Result<Liquidated>)
      modifies this`funds
      ensures r.Ok? ==>
              Assessed(p, price, m, liquidatorBps, insuranceBps, partialEnabled, old(Fund(market)).balance, r.value)
      ensures r.Ok? ==> r.value.trader == trader && r.value.market == market && r.value.liquidator == liquidator
      ensures r.Ok? ==> FundMoved(old(Fund(market)), r.value.(contribution := 0), Fund(market))
      ensures r.Ok? <==> AssessFits(p, price, m, liquidatorBps, insuranceBps, partialEnabled)
      ensures r.Err? ==> r.error == Overflow && funds == old(funds)
    {
      hide Assessed;
      var fund := Fund(market);
      var res :- Assess(p, price, m, fund.balance, trader, market, liquidator);
      UsageBounded(p, price, m, liquidatorBps, insuranceBps, partialEnabled, fund.balance, res);
      if res.usage > 0 {
        funds := funds[market := fund.(balance := fund.balance - res.usage, payouts := fund.payouts + res.usage)];
      }
      r := Ok(res);
    }

    // After the orders are gone: amounts, the fund's share of a shortfall, the position, the payouts.
    method Settle(engine: Engine, m: Market, trader: Address, market: u32, price: u64, liquidator: Address)
      returns (r: Result<Liquidated>)
      requires engine.Valid() && PositionKey(trader, market) in engine.state.positions
      modifies this`funds, engine.state`positions, engine.state`positionIndex, engine.state`balances
      ensures engine.Valid()
      ensures SameElsewhere(old(engine.state.positions), engine.state.positions, PositionKey(trader, market))
      ensures OnlyShrunk(old(engine.state.positions), engine.state.positions)
      ensures r.Ok? ==>
              SettledFrom(old(engine.state.View()), old(Fund(market)), liquidatorBps, insuranceBps, partialEnabled, m,
                                    trader, market, price, liquidator, r.value, engine.state.View(), Fund(market))
      ensures r.Ok? ==> ForcedDown(old(engine.state.positions)[PositionKey(trader, market)],
                                   PositionOf(engine.state.positions, PositionKey(trader, market)), r.value.size)
      ensures r.Ok? <==> Settles(old(engine.state.View()), old(Fund(market)), liquidatorBps, insuranceBps,
                                 partialEnabled, m, trader, market, price, liquidator)
      ensures r.Err? ==> r.error == Overflow
      ensures r.Err? ==>
                StoppedFrom(old(engine.state.View()), old(Fund(market)), liquidatorBps, insuranceBps, partialEnabled,
                            m, trader, market, price, liquidator, engine.state.View(), Fund(market))
    {
      hide Inv, PriceLevels.BookAgrees, Assessed, AfterCut, Credited, OnlyShrunk, PutPosition, SameElsewhere,
          SettledFrom, StoppedAfter, PaidUpTo, FundMoved, ForcedDown, CutFits, PayoutFits, AssessFits;
      SameShrunk(engine.state.positions);
      ElsewhereSame(engine.state.positions, PositionKey(trader, market));
      ghost var s, fund := engine.state.View(), Fund(market);
      var k := PositionKey(trader, market);
      var p := engine.state.positions[k];
      var res :- Cover(p, price, m, trader, market, liquidator);
      SettlesBy(s, fund, liquidatorBps, insuranceBps, partialEnabled, m, trader, market, price, liquidator, res);
      ghost var covered := Fund(market);
      CoveredFields(fund, res, covered);
      var cut := TakeDown(engine, k, res.size);
      if cut.Err? {
        StoppedHolds(s, fund, liquidatorBps, insuranceBps, partialEnabled, m, trader, market, price, liquidator, res,
                     covered, engine.state.View(), Fund(market));
        return Err(cut.error);
      }
      var paid := Distribute(engine, m, res);
      if paid.Err? {
        StoppedHolds(s, fund, liquidatorBps, insuranceBps, partialEnabled, m, trader, market, price, liquidator, res,
                     covered, engine.state.View(), Fund(market));
        return Err(paid.error);
      }
      SettledHolds(s, fund, liquidatorBps, insuranceBps, partialEnabled, m, trader, market, price, liquidator, res,
                   covered, engine.state.View(), Fund(market));
      r := Ok(res);
    }

    // Liquidate the listed accounts in turn. While each is liquidatable before its turn, each gives a result.
    method LiquidateEach(engine: Engine, market: u32, mark: u64, liquidator: Address, traders: seq<Address>)
      returns (r: Result<seq<Liquidated>>)
      requires engine.Valid() && market in engine.state.markets
      modifies this`funds, engine.orderbook
      modifies engine.state`orders, engine.state`active, engine.state`positions, engine.state`positionIndex,
          engine.state`balances
      ensures engine.Valid() && ForcedTo(old(engine.state.View()), engine.state.View())
      ensures r.Err? && mark > 0 ==> r.error == Overflow
      ensures r.Ok? && EachLiquidatable(old(engine.state.View()), market, mark, traders) ==>
                && |r.value| == |traders|
                && forall i :: 0 <= i < |traders| ==> r.value[i].trader == traders[i]
    {
      hide Inv, PriceLevels.BookAgrees, LiquidatedFrom, FailedFrom, Accepted, Liquidatable, EachLiquidatable,
          OnlyShrunk, ForcedTo, CancelTrader, SameElsewhere, MovedOnly;
      NoneMoved(engine.state.positions, market);
      assert traders[..0] == [];
      ghost var s := engine.state.View();
      ForcedNowhere(s);
      ghost var current := EachLiquidatable(s, market, mark, traders);
      var results: seq<Liquidated> := [];
      var i := 0;
      while i < |traders|
        invariant 0 <= i <= |traders| && engine.Valid() && engine.state.markets == s.markets
        invariant ForcedTo(s, engine.state.View())
        invariant current ==> MovedOnly(s.positions, engine.state.positions, market, traders[..i])
        invariant current ==> |results| == i && forall j :: 0 <= j < i ==> results[j].trader == traders[j]
      {
        ghost var before := engine.state.View();
        if current {
          TurnAccepted(s, before, market, mark, traders, i);
        }
        var outcome := LiquidateWithIncentive(engine, traders[i], market, mark, liquidator);
        ForcedFurther(s, before, engine.state.View());
        var result :- outcome;
        if result.Some? {
          results := results + [result.value];
        }
        if current {
          MovedOneMore(s.positions, before.positions, engine.state.positions, market, traders, i);
        }
        i := i + 1;
      }
      r := Ok(results);
    }

    // Liquidate up to a number of the accounts the index lists. With an index that is current for this
    // price, and a price that rounds to itself, everyone it lists is still liquidatable when their turn
    // comes, so that many results come back.
    method ProcessLiquidationBatch(engine: Engine, market: u32, mark: u64, liquidator: Address, maxLiquidations: nat)
      returns (r: Result<seq<Liquidated>>, ghost listed: seq<Address>)
      requires engine.Valid()
      modifies this`funds, engine.orderbook
      modifies engine.state`orders, engine.state`active, engine.state`positions, engine.state`positionIndex,
          engine.state`balances
      ensures engine.Valid() && ForcedTo(old(engine.state.View()), engine.state.View())
      ensures market !in engine.state.markets ==> r == Err(MarketNotFound)
      ensures market in engine.state.markets &&
              IndexCurrent(Risks(market), old(engine.state.positions), market, mark) ==>
                && (forall i, j :: 0 <= i < j < |listed| ==> listed[i] != listed[j])
                && (forall a :: a in listed <==>
                      Liquidatable(old(engine.state.positions), market, mark,
                                   engine.state.markets[market].maintenanceBps, a))
      ensures r.Err? && market in engine.state.markets && mark > 0 ==> r.error == Overflow
      ensures r.Ok? && market in engine.state.markets && mark > 0 &&
              NormalizePrice(engine.state.markets[market].tickSize, mark) == mark &&
              IndexCurrent(Risks(market), old(engine.state.positions), market, mark) ==>
                && |r.value| == Min(maxLiquidations, |listed|)
                && forall i :: 0 <= i < |r.value| ==> r.value[i].trader == listed[i]
    {
      hide Inv, PriceLevels.BookAgrees, Liquidatable, IndexCurrent, ForcedTo;
      ForcedNowhere(engine.state.View());
      listed := [];
      if market !in engine.state.markets {
        r := Err(MarketNotFound);
        return;
      }
      var bps := engine.state.markets[market].maintenanceBps;
      var traders := GetAtRiskPositions(market, bps);
      listed := traders;
      ListedAreLiquidatable(Risks(market), engine.state.positions, market, mark, bps, traders);
      r := LiquidateEach(engine, market, mark, liquidator, traders[..Min(maxLiquidations, |traders|)]);
    }
  }
}
